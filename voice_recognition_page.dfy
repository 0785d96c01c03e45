/** The voice page of the web client: the sentence split used to speak a
    reply, the conversation context sent with a transcript, the conversation
    updates after the server answers, and the listening guards. The browser's
    speech recogniser and synthesiser and the server's answers are inputs. */
module VoiceRecognitionPage {
  import opened Wrappers
  import opened Text
  import VoiceController

  // ------------------------------------------------------ sentence split

  /** The characters of the class `[.!?]`. */
  predicate IsStop(c: char)
  {
    c == '.' || c == '!' || c == '?'
  }

  predicate AllStop(s: string)
  {
    forall i :: 0 <= i < |s| ==> IsStop(s[i])
  }

  predicate NoStop(s: string)
  {
    forall i :: 0 <= i < |s| ==> !IsStop(s[i])
  }

  /** The length of the longest prefix of `s` whose characters are all
      terminators (`stop`) or all non-terminators (`!stop`). */
  function Run(s: string, stop: bool): (n: nat)
    ensures n <= |s|
  {
    if s == [] || IsStop(s[0]) != stop then 0 else 1 + Run(s[1..], stop)
  }

  /** The run is as long as it can be: every character in it is of the
      kind asked for, and the one after it, if any, is not. */
  lemma {:induction false} RunSpan(s: string, stop: bool)
    ensures forall i :: 0 <= i < Run(s, stop) ==> IsStop(s[i]) == stop
    ensures Run(s, stop) < |s| ==> IsStop(s[Run(s, stop)]) != stop
    decreases |s|
  {
    if s != [] && IsStop(s[0]) == stop {
      RunSpan(s[1..], stop);
      assert forall i :: 1 <= i < |s| ==> s[i] == s[1..][i - 1];
    }
  }

  /** A run followed by a character of the other kind is measured exactly. */
  lemma {:induction false} RunAppend(a: string, b: string, stop: bool)
    requires forall i :: 0 <= i < |a| ==> IsStop(a[i]) == stop
    requires b == [] || IsStop(b[0]) != stop
    ensures Run(a + b, stop) == |a|
    decreases |a|
  {
    if a == [] {
      assert a + b == b;
    } else {
      assert (a + b)[0] == a[0];
      assert (a + b)[1..] == a[1..] + b;
      RunAppend(a[1..], b, stop);
    }
  }

  /** One match of `/[^.!?]+[.!?]+/`: some non-terminators, then every
      terminator that follows them. */
  predicate IsSentence(p: string)
  {
    var n := Run(p, false);
    0 < n < |p| && AllStop(p[n..])
  }

  function Flatten(ps: seq<string>): string
  {
    if ps == [] then [] else ps[0] + Flatten(ps[1..])
  }

  /** `text.match(/[^.!?]+[.!?]+/g)`, as a list (empty where JavaScript
      gives `null`): a terminator where a match would have to start is
      skipped, and a run of non-terminators that reaches the end of the text
      matches nothing. */
  function Matches(s: string): seq<string>
    decreases |s|
  {
    if s == [] then []
    else if IsStop(s[0]) then Matches(s[1..])
    else
      var n := Run(s, false);
      if n == |s| then []
      else
        var m := n + Run(s[n..], true);
        [s[..m]] + Matches(s[m..])
  }

  /** One match, taken where the scan meets a non-terminator that a
      terminator follows somewhere: it reaches past every terminator after
      the non-terminators. */
  lemma MatchStep(s: string) returns (m: nat)
    requires s != [] && !IsStop(s[0]) && Run(s, false) < |s|
    ensures 0 < m <= |s| && IsSentence(s[..m])
    ensures Matches(s) == [s[..m]] + Matches(s[m..])
    ensures m == |s| || !IsStop(s[m])
  {
    var n := Run(s, false);
    var k := Run(s[n..], true);
    m := n + k;
    MatchesUnfold(s, n, k, m);
    StepIsSentence(s, n, k, m);
  }

  lemma MatchesUnfold(s: string, n: nat, k: nat, m: nat)
    requires s != [] && !IsStop(s[0]) && n == Run(s, false) < |s|
    requires k == Run(s[n..], true) && m == n + k
    ensures Matches(s) == [s[..m]] + Matches(s[m..])
  {
  }

  /** The non-terminators at the front of `s` and the terminators after
      them form a sentence. */
  lemma StepIsSentence(s: string, n: nat, k: nat, m: nat)
    requires s != [] && !IsStop(s[0]) && n == Run(s, false) < |s|
    requires k == Run(s[n..], true) && m == n + k
    ensures 0 < m <= |s| && IsSentence(s[..m])
    ensures m == |s| || !IsStop(s[m])
  {
    WordPart(s, n);
    StopPart(s, n, k);
    PrefixSplit(s, n, m);
    WordThenStops(s[..m], s[..n], s[n..m]);
  }

  /** The leading run of non-terminators of a text that opens with one. */
  lemma WordPart(s: string, n: nat)
    requires s != [] && !IsStop(s[0]) && n == Run(s, false)
    ensures 0 < n <= |s| && NoStop(s[..n])
  {
    RunSpan(s, false);
    assert forall i :: 0 <= i < n ==> s[..n][i] == s[i];
  }

  /** The run of terminators after the leading non-terminators: not empty,
      and followed by a non-terminator or the end of the text. */
  lemma StopPart(s: string, n: nat, k: nat)
    requires n == Run(s, false) < |s|
    requires k == Run(s[n..], true)
    ensures 0 < k && n + k <= |s| && AllStop(s[n..n + k])
    ensures n + k == |s| || !IsStop(s[n + k])
  {
    RunSpan(s, false);
    RunSpan(s[n..], true);
    assert s[n..][0] == s[n];
    assert forall i :: 0 <= i < k ==> s[n..n + k][i] == s[n..][i];
    if n + k < |s| {
      assert s[n + k] == s[n..][k];
    }
  }

  /** Non-terminators followed by terminators make a sentence. */
  lemma WordThenStops(p: string, w: string, t: string)
    requires w != [] && NoStop(w) && t != [] && AllStop(t)
    requires p == w + t
    ensures IsSentence(p)
  {
    RunAppend(w, t, false);
    assert p[|w|..] == t;
  }

  /** Every match is a sentence. */
  lemma {:induction false} MatchesAreSentences(s: string)
    ensures forall i :: 0 <= i < |Matches(s)| ==> IsSentence(Matches(s)[i])
    decreases |s|
  {
    if s == [] {
    } else if IsStop(s[0]) {
      MatchesAreSentences(s[1..]);
    } else if Run(s, false) < |s| {
      var m := MatchStep(s);
      MatchesAreSentences(s[m..]);
    }
  }

  /** The text is a run of terminators (only when it opens with one), then
      the matches in order, then a fragment with no terminator: nothing but
      that leading run and that trailing fragment is left out. */
  lemma MatchesCoverText(s: string)
    ensures exists lead, tail ::
      && s == lead + Flatten(Matches(s)) + tail
      && AllStop(lead) && NoStop(tail)
      && (lead != [] ==> IsStop(s[0]))
  {
    var lead, tail := Decompose(s);
  }

  lemma {:induction false} Decompose(s: string) returns (lead: string, tail: string)
    ensures s == lead + Flatten(Matches(s)) + tail
    ensures AllStop(lead) && NoStop(tail)
    ensures lead != [] ==> IsStop(s[0])
    decreases |s|, 1
  {
    if s == [] {
      lead, tail := [], [];
    } else if IsStop(s[0]) {
      lead, tail := DecomposeStop(s);
    } else {
      tail := DecomposeWord(s);
      lead := [];
    }
  }

  /** `Decompose` for a text that opens with a terminator. */
  lemma {:induction false} DecomposeStop(s: string) returns (lead: string, tail: string)
    requires s != [] && IsStop(s[0])
    ensures s == lead + Flatten(Matches(s)) + tail
    ensures AllStop(lead) && NoStop(tail)
    decreases |s|, 0
  {
    var lead', tail' := Decompose(s[1..]);
    assert Matches(s) == Matches(s[1..]);
    var f := Flatten(Matches(s));
    lead, tail := [s[0]] + lead', tail';
    assert s == [s[0]] + s[1..];
    Regroup([s[0]], lead' + f, tail');
    Regroup([s[0]], lead', f);
    StopInFront(s[0], lead');
  }

  lemma StopInFront(c: char, lead: string)
    requires IsStop(c) && AllStop(lead)
    ensures AllStop([c] + lead)
  {
    assert forall i :: 0 < i <= |lead| ==> ([c] + lead)[i] == lead[i - 1];
  }

  /** `Decompose` for a text that opens with a non-terminator. */
  lemma {:induction false} DecomposeWord(s: string) returns (tail: string)
    requires s != [] && !IsStop(s[0])
    ensures s == Flatten(Matches(s)) + tail && NoStop(tail)
    decreases |s|, 0
  {
    if Run(s, false) == |s| {
      RunSpan(s, false);
      assert Matches(s) == [] && NoStop(s);
      tail := s;
    } else {
      var m := MatchStep(s);
      var lead';
      lead', tail := Decompose(s[m..]);
      MatchThenRest(s, m, lead', Matches(s[m..]), tail);
    }
  }

  lemma MatchThenRest(s: string, m: nat, lead: string, ms: seq<string>, tail: string)
    requires m <= |s| && (m == |s| || !IsStop(s[m]))
    requires s[m..] == lead + Flatten(ms) + tail
    requires lead != [] ==> IsStop(s[m..][0])
    ensures s == Flatten([s[..m]] + ms) + tail
  {
    assert |s[m..]| >= |lead|;
    FlattenCons(s[..m], ms);
    assert s == s[..m] + s[m..];
  }

  lemma FlattenCons(p: string, ps: seq<string>)
    ensures Flatten([p] + ps) == p + Flatten(ps)
  {
    assert ([p] + ps)[1..] == ps;
  }

  /** A sentence followed by text that does not begin with a terminator is
      matched on its own, and the rest is matched after it. */
  lemma MatchesAppend(p: string, rest: string)
    requires IsSentence(p)
    requires rest == [] || !IsStop(rest[0])
    ensures Matches(p + rest) == [p] + Matches(rest)
  {
    var n := Run(p, false);
    var s := p + rest;
    SentenceRuns(p, rest);
    assert s[0] == p[0];
    assert s[..|p|] == p && s[|p|..] == rest;
  }

  /** Behind a sentence, the text after it does not lengthen either of the
      sentence's two runs. */
  lemma SentenceRuns(p: string, rest: string)
    requires IsSentence(p)
    requires rest == [] || !IsStop(rest[0])
    ensures Run(p + rest, false) == Run(p, false)
    ensures Run((p + rest)[Run(p, false)..], true) == |p| - Run(p, false)
  {
    var n := Run(p, false);
    RunSpan(p, false);
    var w, t := p[..n], p[n..];
    assert forall i :: 0 <= i < |w| ==> w[i] == p[i];
    assert t[0] == p[n];
    Regroup(w, t, rest);
    assert p == w + t;
    RunAppend(w, t + rest, false);
    assert (p + rest)[n..] == t + rest;
    RunAppend(t, rest, true);
  }

  lemma {:induction false} NoStopNoMatches(s: string)
    requires NoStop(s)
    ensures Matches(s) == []
  {
    if s != [] {
      RunAppend(s, [], false);
      assert s + [] == s;
    }
  }

  /** The chunks `speakText` reads: the matches, or the whole text when
      there are none. */
  function Sentences(text: string): (ss: seq<string>)
    ensures |ss| >= 1
  {
    var ms := Matches(text);
    if ms == [] then [text] else ms
  }

  /** A text without any terminator is read as one chunk. */
  lemma WithoutStopOneChunk(text: string)
    requires NoStop(text)
    ensures Sentences(text) == [text]
  {
    NoStopNoMatches(text);
  }

  /** A fragment after the last terminator is never read: a sentence
      followed by a non-empty fragment without terminator yields that
      sentence alone. */
  lemma UnterminatedTailIsDropped(p: string, tail: string)
    requires IsSentence(p) && tail != [] && NoStop(tail)
    ensures Sentences(p + tail) == [p]
  {
    MatchesAppend(p, tail);
    NoStopNoMatches(tail);
  }

  /** What is handed to the synthesiser: each chunk, trimmed. */
  function Utterances(text: string): (us: seq<string>)
    ensures |us| == |Sentences(text)|
    ensures forall i :: 0 <= i < |us| ==> us[i] == Trim(Sentences(text)[i])
  {
    var ss := Sentences(text);
    seq(|ss|, i requires 0 <= i < |ss| => Trim(ss[i]))
  }

  // ----------------------------------------------------- context

  const USER_SENDER := "Utilisateur"
  const ASSISTANT_SENDER := "Assistant"
  const SYSTEM_INSTRUCTION := "Tu es un assistant virtuel qui répond TOUJOURS en français. Ne réponds jamais en anglais."

  datatype Message = Message(sender: string, text: string)

  datatype Role = SystemRole | UserRole | AssistantRole
  datatype ContextMessage = ContextMessage(role: Role, content: string)

  /** A message as context: 'user' for the user's own messages, 'assistant'
      for any other sender. */
  function AsContext(m: Message): (c: ContextMessage)
    ensures c.content == m.text
    ensures c.role == UserRole <==> m.sender == USER_SENDER
    ensures c.role != SystemRole
  {
    ContextMessage(if m.sender == USER_SENDER then UserRole else AssistantRole, m.text)
  }

  function Min(a: int, b: int): int
  {
    if a <= b then a else b
  }

  /** The context sent with a transcript: the last four messages at most,
      or the system instruction alone when there are none. */
  function ContextFor(conversation: seq<Message>): (c: seq<ContextMessage>)
    ensures 1 <= |c| <= 4
    ensures conversation == [] ==> c == [ContextMessage(SystemRole, SYSTEM_INSTRUCTION)]
    ensures conversation != [] ==> |c| == Min(4, |conversation|)
  {
    if conversation == [] then [ContextMessage(SystemRole, SYSTEM_INSTRUCTION)]
    else
      var recent := conversation[|conversation| - Min(4, |conversation|)..];
      seq(|recent|, k requires 0 <= k < |recent| => AsContext(recent[k]))
  }

  /** The context of a non-empty conversation is its most recent messages,
      in order, and never holds the system instruction. */
  lemma ContextIsRecentMessages(conversation: seq<Message>)
    requires conversation != []
    ensures var c := ContextFor(conversation);
      forall k :: 0 <= k < |c| ==>
        c[k] == AsContext(conversation[|conversation| - |c| + k]) && c[k].role != SystemRole
  {
  }

  // ----------------------------------------------------- server answer

  /** The answer to `POST /voice/process`: a transport or HTTP failure (with
      the message the page shows), or a JSON body. */
  datatype Response = Failed(message: string) | Body(success: bool, reply: string, error: string)

  const INVALID_REPLY := "Réponse invalide du serveur"
  const NOT_SIGNED_IN := "Non authentifié"
  const PROCESSING_ERROR := "Erreur lors du traitement: "

  /** The reply the page accepts, or the message of the error it throws. */
  function Outcome(signedIn: bool, response: Response): (r: Result<string, string>)
    ensures r.Ok? <==> signedIn && response.Body? && response.success && response.reply != []
    ensures r.Ok? ==> r.value == response.reply
    ensures !signedIn ==> r == Err(NOT_SIGNED_IN)
    ensures signedIn && response.Failed? ==> r == Err(response.message)
    ensures signedIn && response.Body? && r.Err? ==>
      r.error == (if response.error != [] then response.error else INVALID_REPLY)
  {
    if !signedIn then Err(NOT_SIGNED_IN)
    else match response
      case Failed(message) => Err(message)
      case Body(success, reply, error) =>
        if success && reply != [] then Ok(reply)
        else Err(if error != [] then error else INVALID_REPLY)
  }

  /** After one exchange through the page, the server's history holds that
      exchange twice: `/voice/process` appends it, then the page's
      `saveConversationToHistory` appends it again. */
  lemma HistoryHoldsExchangeTwice(h: seq<VoiceController.Entry>, message: string, reply: string)
    ensures var e := VoiceController.Exchange(message, reply);
      var saved := VoiceController.Capped(h + e + e);
      |saved| >= 4 && saved[|saved| - 4..] == e + e
  {
    var e := VoiceController.Exchange(message, reply);
    var full := h + e + e;
    var saved := VoiceController.Capped(full);
    assert saved == full[|full| - |saved|..];
    assert saved[|saved| - 4..] == full[|full| - 4..];
    assert full[|full| - 4..] == e + e;
  }

  /** How many utterances are spoken when the one at `failAt` errors. */
  function SpokenCount(n: nat, failAt: Option<nat>): (k: nat)
    ensures k <= n
    ensures k < n <==> failAt.Some? && failAt.value + 1 < n
  {
    if failAt.Some? && failAt.value < n then failAt.value + 1 else n
  }

  predicate Interrupted(n: nat, failAt: Option<nat>)
  {
    failAt.Some? && failAt.value < n
  }

  /** The utterance chain of `speakNextSentence`: each `onend` moves
      `currentIndex` on by one and speaks the next chunk, an `onerror`
      ends the chain. */
  method SpeakChunks(chunks: seq<string>, failAt: Option<nat>) returns (said: seq<string>, failed: bool)
    ensures said == chunks[..SpokenCount(|chunks|, failAt)]
    ensures failed <==> Interrupted(|chunks|, failAt)
  {
    said, failed := [], false;
    var currentIndex := 0;
    while currentIndex < |chunks|
      invariant 0 <= currentIndex <= |chunks|
      invariant !(failAt.Some? && failAt.value < currentIndex)
      invariant said == chunks[..currentIndex]
    {
      said := said + [chunks[currentIndex]];
      if failAt == Some(currentIndex) {
        return said, true;
      }
      currentIndex := currentIndex + 1;
    }
  }

  /** `!text.trim()`: true exactly for a text of white space alone. */
  method IsBlank(text: string) returns (b: bool)
    ensures b <==> AllSpace(text)
  {
    TrimOfAllSpace(text);
    b := Trim(text) == [];
  }

  /** What the conversation gains: the user's message, and the reply when
      there is one. */
  function Appended(text: string, outcome: Result<string, string>): (ms: seq<Message>)
    ensures |ms| == if outcome.Ok? then 2 else 1
    ensures ms[0] == Message(USER_SENDER, text)
    ensures outcome.Ok? ==> ms[1] == Message(ASSISTANT_SENDER, outcome.value)
  {
    if outcome.Ok? then [Message(USER_SENDER, text), Message(ASSISTANT_SENDER, outcome.value)]
    else [Message(USER_SENDER, text)]
  }

  const SYNTHESIS_ERROR := "Erreur lors de la synthèse vocale"
  const NO_SYNTHESIS := "La synthèse vocale n'est pas supportée par votre navigateur"
  const NO_RECOGNITION := "La reconnaissance vocale n'est pas supportée par votre navigateur"
  const RECOGNITION_INIT_ERROR := "Erreur lors de l'initialisation de la reconnaissance vocale"

  /** The page's state. `spoken` records the utterances handed to the
      synthesiser, in order; `hasRecognizer` and `hasSynthesis` say what the
      browser offers. */
  class VoicePage {
    var conversation: seq<Message>
    var transcript: string
    var error: string
    var isProcessing: bool
    var isListening: bool
    var isSpeaking: bool
    var hasRecognizer: bool
    var hasSynthesis: bool
    var spoken: seq<string>

    /** The first render and the mount effect: `supported` says whether the
        browser offers `webkitSpeechRecognition`, `initOk` whether building
        the recogniser succeeds. A recogniser is kept only when both hold. */
    constructor (supported: bool, initOk: bool, hasSynthesis: bool)
      ensures hasRecognizer <==> supported && initOk
      ensures this.hasSynthesis == hasSynthesis
      ensures conversation == [] && transcript == [] && !isProcessing && !isListening && !isSpeaking
      ensures spoken == []
      ensures error == if !supported then NO_RECOGNITION else if !initOk then RECOGNITION_INIT_ERROR else []
    {
      hasRecognizer := supported && initOk;
      this.hasSynthesis := hasSynthesis;
      conversation := [];
      transcript := [];
      error := if !supported then NO_RECOGNITION else if !initOk then RECOGNITION_INIT_ERROR else [];
      isProcessing := false;
      isListening := false;
      isSpeaking := false;
      spoken := [];
    }

    /** `speakText` run to its end. Each chunk is read in order, once;
        `failAt` is the index of the utterance whose `onerror` fires, which
        stops the chain there. Nothing happens while already speaking. */
    method SpeakText(text: string, failAt: Option<nat>)
      modifies this
      ensures !hasSynthesis ==> spoken == old(spoken) && error == NO_SYNTHESIS && isSpeaking == old(isSpeaking)
      ensures hasSynthesis && old(isSpeaking) ==> spoken == old(spoken) && error == old(error) && isSpeaking
      ensures hasSynthesis && !old(isSpeaking) ==>
        && spoken == old(spoken) + Utterances(text)[..SpokenCount(|Utterances(text)|, failAt)]
        && !isSpeaking
        && error == (if Interrupted(|Utterances(text)|, failAt) then SYNTHESIS_ERROR else old(error))
      ensures conversation == old(conversation) && transcript == old(transcript) && isProcessing == old(isProcessing)
      ensures isListening == old(isListening) && hasRecognizer == old(hasRecognizer) && hasSynthesis == old(hasSynthesis)
    {
      if !hasSynthesis {
        error := NO_SYNTHESIS;
        return;
      }
      if isSpeaking {
        return;
      }
      var said, failed := SpeakChunks(Utterances(text), failAt);
      spoken := spoken + said;
      if failed {
        error := SYNTHESIS_ERROR;
      }
    }

    /** `processTranscript` run to its end. A blank transcript is ignored.
        Otherwise the context is sent when signed in; a good reply appends
        the user's message and the reply and is saved to the history, any
        failure appends the user's message alone; processing ends and the
        transcript is cleared either way. `sent` is the context sent and
        `saved` the pair posted to `/voice/save-history`. */
    method ProcessTranscript(text: string, signedIn: bool, response: Response)
      returns (sent: Option<seq<ContextMessage>>, saved: Option<(string, string)>)
      modifies this
      ensures AllSpace(text) ==>
        && sent == None && saved == None
        && conversation == old(conversation) && transcript == old(transcript)
        && error == old(error) && isProcessing == old(isProcessing)
      ensures !AllSpace(text) ==>
        && sent == (if signedIn then Some(ContextFor(old(conversation))) else None)
        && !isProcessing && transcript == []
        && conversation == old(conversation) + Appended(text, Outcome(signedIn, response))
        && saved == (if Outcome(signedIn, response).Ok? then Some((text, Outcome(signedIn, response).value)) else None)
        && error == (if Outcome(signedIn, response).Ok? then [] else PROCESSING_ERROR + Outcome(signedIn, response).error)
      ensures spoken == old(spoken) && isSpeaking == old(isSpeaking) && isListening == old(isListening)
      ensures hasRecognizer == old(hasRecognizer) && hasSynthesis == old(hasSynthesis)
    {
      sent, saved := None, None;
      var blank := IsBlank(text);
      if blank {
        return;
      }
      isProcessing := true;
      error := [];
      if signedIn {
        sent := Some(ContextFor(conversation));
      }
      var outcome := Outcome(signedIn, response);
      if outcome.Ok? {
        saved := Some((text, outcome.value));
      } else {
        error := PROCESSING_ERROR + outcome.error;
      }
      conversation := conversation + Appended(text, outcome);
      isProcessing := false;
      transcript := [];
    }

    /** `startListening`: starts the recogniser only when there is one and
        it is not already listening, clearing the transcript and the error. */
    method StartListening() returns (started: bool)
      modifies this
      ensures started <==> hasRecognizer && !old(isListening)
      ensures started ==> transcript == [] && error == []
      ensures !started ==> transcript == old(transcript) && error == old(error)
      ensures isListening == old(isListening) && conversation == old(conversation) && spoken == old(spoken)
      ensures isSpeaking == old(isSpeaking) && isProcessing == old(isProcessing)
      ensures hasRecognizer == old(hasRecognizer) && hasSynthesis == old(hasSynthesis)
    {
      started := hasRecognizer && !isListening;
      if started {
        transcript := [];
        error := [];
      }
    }

    /** `stopListening`: stops the recogniser only while it listens. */
    method StopListening() returns (stopped: bool)
      ensures stopped <==> hasRecognizer && isListening
    {
      stopped := hasRecognizer && isListening;
    }

    /** The recogniser's `onstart` and `onend` events. */
    method OnStart()
      modifies this
      ensures isListening && error == []
      ensures conversation == old(conversation) && transcript == old(transcript) && spoken == old(spoken)
      ensures isSpeaking == old(isSpeaking) && isProcessing == old(isProcessing)
      ensures hasRecognizer == old(hasRecognizer) && hasSynthesis == old(hasSynthesis)
    {
      isListening := true;
      error := [];
    }

    method OnEnd()
      modifies this
      ensures !isListening
      ensures conversation == old(conversation) && transcript == old(transcript) && spoken == old(spoken)
      ensures error == old(error) && isSpeaking == old(isSpeaking) && isProcessing == old(isProcessing)
      ensures hasRecognizer == old(hasRecognizer) && hasSynthesis == old(hasSynthesis)
    {
      isListening := false;
    }
  }
}
