/** The face-model loader: two flags, `loaded` and `loading`, driven by
    `load`, `reset` and the periodic health check. A load is split at its
    first `await` into a start and a finish, so that a second call arriving
    while the first is still loading can be described. Whether the model
    files load is an input. */
module ModelManager {

  datatype Flags = Flags(loaded: bool, loading: bool)

  /** What `load` does before its first `await`: answer at once, or start. */
  datatype LoadStart = AnswerNow(result: bool) | Started

  function BeginStep(f: Flags): (r: (Flags, LoadStart))
    ensures f.loading ==> r == (f, AnswerNow(false))
    ensures !f.loading && f.loaded ==> r == (f, AnswerNow(true))
    ensures !f.loading && !f.loaded ==> r == (Flags(false, true), Started)
  {
    if f.loading then (f, AnswerNow(false))
    else if f.loaded then (f, AnswerNow(true))
    else (f.(loading := true), Started)
  }

  /** The end of an attempt: `loaded` is set on success, and the `finally`
      clears `loading` whatever happened. */
  function FinishStep(f: Flags, success: bool): (g: Flags)
    ensures !g.loading
    ensures g.loaded <==> f.loaded || success
  {
    Flags(f.loaded || success, false)
  }

  /** One `load()` call run to completion: an answer of true means the
      model is loaded, and `loading` is left set only by a call that found a
      load already running and changed nothing. */
  function LoadStep(f: Flags, success: bool): (r: (Flags, bool))
    ensures r.1 ==> r.0.loaded
    ensures r.0.loading ==> r == (f, false)
  {
    match BeginStep(f)
    case (g, AnswerNow(b)) => (g, b)
    case (g, Started) => (FinishStep(g, success), success)
  }

  /** `load` answers false and changes nothing while a load is running,
      answers true and changes nothing once loaded, and otherwise ends with
      `loading` false and `loaded` equal to its answer, which is whether
      every model loaded. */
  lemma LoadOutcome(f: Flags, success: bool)
    ensures f.loading ==> LoadStep(f, success) == (f, false)
    ensures !f.loading && f.loaded ==> LoadStep(f, success) == (f, true)
    ensures !f.loading && !f.loaded ==>
      LoadStep(f, success) == (Flags(success, false), success)
    ensures !f.loading ==> !LoadStep(f, success).0.loading && LoadStep(f, success).0.loaded == LoadStep(f, success).1
  {
  }

  /** `reset`: both flags cleared, then `load`. */
  function ResetStep(f: Flags, success: bool): (r: (Flags, bool))
    ensures r == (Flags(success, false), success)
  {
    LoadStep(Flags(false, false), success)
  }

  /** One health-check tick: only a loaded, idle manager probes its model,
      and a failed probe resets it. */
  function HealthTick(f: Flags, probeOk: bool, reloadOk: bool): (g: Flags)
    ensures !(f.loaded && !f.loading) ==> g == f
    ensures f.loaded && !f.loading && probeOk ==> g == f
    ensures f.loaded && !f.loading && !probeOk ==> g == Flags(reloadOk, false)
  {
    if f.loaded && !f.loading then
      if probeOk then f else ResetStep(f, reloadOk).0
    else f
  }

  /** Two overlapping calls: the second finds the first still loading and
      answers false at once. */
  lemma OverlappingLoadAnswersFalse()
    ensures var first := BeginStep(Flags(false, false));
      first.1 == Started && BeginStep(first.0) == (first.0, AnswerNow(false))
  {
  }

  /** From the initial state, no sequence of completed loads, resets and
      ticks leaves `loading` set. */
  lemma {:induction false} CompletedCallsLeaveIdle(calls: seq<Call>)
    ensures !Run(Flags(false, false), calls).loading
  {
    RunKeepsIdle(Flags(false, false), calls);
  }

  /** One completed call, with the outcomes its foreign calls give. */
  datatype Call =
    | LoadCall(success: bool)
    | ResetCall(success: bool)
    | TickCall(probeOk: bool, reloadOk: bool)

  function Apply(f: Flags, c: Call): Flags
  {
    match c
    case LoadCall(success) => LoadStep(f, success).0
    case ResetCall(success) => ResetStep(f, success).0
    case TickCall(probeOk, reloadOk) => HealthTick(f, probeOk, reloadOk)
  }

  /** Apply completed calls in order. */
  function Run(f: Flags, calls: seq<Call>): Flags
    decreases |calls|
  {
    if calls == [] then f else Run(Apply(f, calls[0]), calls[1..])
  }

  lemma {:induction false} RunKeepsIdle(f: Flags, calls: seq<Call>)
    requires !f.loading
    ensures !Run(f, calls).loading
    decreases |calls|
  {
    if calls != [] {
      if calls[0].LoadCall? {
        LoadOutcome(f, calls[0].success);
      }
      RunKeepsIdle(Apply(f, calls[0]), calls[1..]);
    }
  }

  /** The manager object and its two flags. */
  class Manager {
    var loaded: bool
    var loading: bool

    function State(): Flags
      reads this
    {
      Flags(loaded, loading)
    }

    constructor ()
      ensures !loaded && !loading
    {
      loaded := false;
      loading := false;
    }

    /** `load` up to its first `await`. */
    method BeginLoad() returns (r: LoadStart)
      modifies this
      ensures (State(), r) == BeginStep(old(State()))
    {
      if loading {
        return AnswerNow(false);
      }
      if loaded {
        return AnswerNow(true);
      }
      loading := true;
      r := Started;
    }

    /** The rest of `load`, once the model files have (or have not) loaded. */
    method FinishLoad(success: bool) returns (r: bool)
      modifies this
      ensures State() == FinishStep(old(State()), success) && r == success
    {
      if success {
        loaded := true;
      }
      loading := false;
      r := success;
    }

    method Load(success: bool) returns (r: bool)
      modifies this
      ensures (State(), r) == LoadStep(old(State()), success)
    {
      var start := BeginLoad();
      if start.AnswerNow? {
        return start.result;
      }
      r := FinishLoad(success);
    }

    method Reset(success: bool) returns (r: bool)
      modifies this
      ensures (State(), r) == ResetStep(old(State()), success)
    {
      loaded := false;
      loading := false;
      r := Load(success);
    }

    /** The body of the `setInterval` callback of `startHealthCheck`. */
    method HealthCheckTick(probeOk: bool, reloadOk: bool)
      modifies this
      ensures State() == HealthTick(old(State()), probeOk, reloadOk)
    {
      if loaded && !loading {
        if !probeOk {
          var _ := Reset(reloadOk);
        }
      }
    }
  }
}
