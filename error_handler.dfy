/** The last Express middleware: it turns a thrown error into an HTTP
    status and a JSON body. */
module ErrorHandler {
  import opened Wrappers

  /** One entry of a Sequelize validation error's `errors` list. */
  datatype ValidationItem = ValidationItem(path: string, message: string)

  /** The fields of a thrown error the handler reads. */
  datatype AppError = AppError(name: string, code: string, message: string, errors: seq<ValidationItem>)

  datatype Detail = Detail(field: string, message: string)

  /** The answer: status, `error` text, `details` (validation errors only)
      and `message` (present only in development). */
  datatype ErrorResponse = ErrorResponse(status: int, error: string, details: Option<seq<Detail>>,
                                         message: Option<string>)

  /** `err.errors.map(e => ({ field: e.path, message: e.message }))`. */
  function Details(errors: seq<ValidationItem>): (ds: seq<Detail>)
    ensures |ds| == |errors|
    ensures forall i :: 0 <= i < |errors| ==> ds[i] == Detail(errors[i].path, errors[i].message)
  {
    if errors == [] then [] else [Detail(errors[0].path, errors[0].message)] + Details(errors[1..])
  }

  /** `errorHandler`; `nodeEnv` is `process.env.NODE_ENV`. */
  function HandleError(err: AppError, nodeEnv: string): (r: ErrorResponse)
    ensures err.name == "SequelizeValidationError" ==>
      r.status == 400 && r.error == "Données invalides" && r.details == Some(Details(err.errors))
    ensures err.name == "MulterError" ==>
      && r.status == 400 && r.details.None?
      && (r.error == "Fichier trop volumineux" <==> err.code == "LIMIT_FILE_SIZE")
      && (err.code != "LIMIT_FILE_SIZE" ==> r.error == "Erreur lors du téléchargement du fichier")
    ensures r.status == 500 <==> err.name != "SequelizeValidationError" && err.name != "MulterError"
    ensures r.status == 500 ==> r.error == "Erreur interne du serveur" && r.details.None?
    ensures r.message.Some? <==> r.status == 500 && nodeEnv == "development"
    ensures r.message.Some? ==> r.message.value == err.message
  {
    if err.name == "SequelizeValidationError" then
      ErrorResponse(400, "Données invalides", Some(Details(err.errors)), None)
    else if err.name == "MulterError" then
      ErrorResponse(400, if err.code == "LIMIT_FILE_SIZE" then "Fichier trop volumineux"
                         else "Erreur lors du téléchargement du fichier", None, None)
    else
      ErrorResponse(500, "Erreur interne du serveur", None,
                    if nodeEnv == "development" then Some(err.message) else None)
  }

  /** Outside development the raw message never leaves the server, whatever
      the error. */
  lemma NoLeakOutsideDevelopment(err: AppError, nodeEnv: string)
    requires nodeEnv != "development"
    ensures HandleError(err, nodeEnv).message.None?
  {
  }
}
