/** The voice-assistant controller: greeting detection, the clean-up of
    provider replies, the reply-length tiers, the provider fallback chain and
    the per-user conversation history (`conversationHistory`). The language
    models themselves are inputs. */
module VoiceController {
  import opened Wrappers
  import opened Text

  // ------------------------------------------------------------- greetings

  const GREETING_WORDS: seq<string> := ["bonjour", "salut", "hello", "coucou", "bonsoir", "hey"]

  /** `t` opens with the word `w`, compared without case, and the word is
      followed by white space or by the end of `t`. */
  predicate OpensWithWord(t: string, w: string)
  {
    StartsWith(Lower(t), w) && (|t| == |w| || IsSpace(t[|w|]))
  }

  /** Some word of `words` opens `t` in the sense of `OpensWithWord`; the
      words are tried in order, as the regex alternation does. */
  predicate OpensWithAny(t: string, words: seq<string>)
  {
    words != [] && (OpensWithWord(t, words[0]) || OpensWithAny(t, words[1..]))
  }

  lemma {:induction false} OpensWithAnyMeans(t: string, words: seq<string>)
    ensures OpensWithAny(t, words) <==> exists w :: w in words && OpensWithWord(t, w)
  {
    if words != [] {
      OpensWithAnyMeans(t, words[1..]);
      assert words == [words[0]] + words[1..];
    }
  }

  /** `isSimpleGreeting`: `/^(bonjour|salut|hello|coucou|bonsoir|hey)(\s|$)/i`
      on the trimmed text. */
  predicate IsSimpleGreeting(text: string)
    ensures IsSimpleGreeting(text) ==> |Trim(text)| >= 3
  {
    OpensWithAnyMeans(Trim(text), GREETING_WORDS);
    OpensWithAny(Trim(text), GREETING_WORDS)
  }

  /** A greeting is exactly a trimmed text that opens, in any letter case,
      with one of the six words followed by white space or the end. */
  lemma GreetingMeans(text: string)
    ensures IsSimpleGreeting(text) <==>
      exists w :: w in GREETING_WORDS && StartsWith(Lower(Trim(text)), w)
                  && (|Trim(text)| == |w| || IsSpace(Trim(text)[|w|]))
  {
    OpensWithAnyMeans(Trim(text), GREETING_WORDS);
  }

  /** On a text with no white space at either end, the test is the plain
      word test. */
  lemma GreetingOfTrimmed(text: string)
    requires text != [] && !IsSpace(text[0]) && !IsSpace(text[|text| - 1])
    ensures IsSimpleGreeting(text) <==> exists w :: w in GREETING_WORDS && OpensWithWord(text, w)
  {
    TrimUnchanged(text);
    OpensWithAnyMeans(text, GREETING_WORDS);
  }

  lemma TrimPadded()
    ensures Trim("  Hey ") == "Hey"
  {
    TrimExact("  ", "Hey", " ");
    assert "  " + "Hey" + " " == "  Hey ";
  }

  lemma HeyOpens()
    ensures OpensWithAny("Hey", GREETING_WORDS)
  {
    assert Lower("Hey") == "hey";
    assert OpensWithWord("Hey", GREETING_WORDS[5]);
    OpensWithAnyMeans("Hey", GREETING_WORDS);
  }

  /** Surrounding white space does not matter. */
  lemma GreetingPadded()
    ensures IsSimpleGreeting("  Hey ")
  {
    TrimPadded();
    HeyOpens();
  }

  /** Letter case does not matter, and white space may follow the word. */
  lemma GreetingUpperCase()
    ensures IsSimpleGreeting("HEY toi")
  {
    TrimUnchanged("HEY toi");
    HeyToiOpens();
  }

  lemma HeyToiOpens()
    ensures OpensWithAny("HEY toi", GREETING_WORDS)
  {
    HeyToiWord();
    assert GREETING_WORDS[5] == "hey";
    OpensWithAnyMeans("HEY toi", GREETING_WORDS);
  }

  lemma HeyToiWord()
    ensures OpensWithWord("HEY toi", "hey")
  {
    LowerPrefix("HEY toi", 3);
    assert "HEY toi"[..3] == "HEY";
    assert Lower("HEY") == "hey";
  }

  /** Punctuation right after the word, or a longer word, is no greeting. */
  lemma NotGreetingComma()
    ensures !IsSimpleGreeting("Salut,")
  {
    forall w | w in GREETING_WORDS ensures !OpensWithWord("Salut,", w) {
      NotOpeningSalut(w);
    }
    GreetingOfTrimmed("Salut,");
  }

  lemma NotOpeningSalut(w: string)
    requires w in GREETING_WORDS
    ensures !OpensWithWord("Salut,", w)
  {
    assert Lower("Salut,") == "salut,";
    if w == "salut" {
      assert "Salut,"[5] == ',';
    } else {
      assert w[0] != 's';
    }
  }

  lemma NotGreetingLongerWord()
    ensures !IsSimpleGreeting("Heyo")
  {
    forall w | w in GREETING_WORDS ensures !OpensWithWord("Heyo", w) {
      NotOpeningHeyo(w);
    }
    GreetingOfTrimmed("Heyo");
  }

  lemma NotOpeningHeyo(w: string)
    requires w in GREETING_WORDS
    ensures !OpensWithWord("Heyo", w)
  {
    assert Lower("Heyo") == "heyo";
    if w == "hey" {
      assert "Heyo"[3] == 'o';
    } else if w == "hello" {
      assert |w| > 4;
    } else {
      assert w[0] != 'h';
    }
  }

  /** `getGreetingResponse`: `Math.floor(Math.random() * 3)` is the index. */
  const GREETINGS: seq<string> := [
    "Bonjour ! Comment puis-je vous aider aujourd'hui ?",
    "Bonjour ! Que puis-je faire pour vous ?",
    "Bonjour ! Je suis là pour répondre à vos questions."
  ]

  // -------------------------------------------------------- reply clean-up

  const ENGLISH_OPENINGS: seq<string> := ["hello", "hi", "welcome", "good morning", "good afternoon", "dear"]
  const APOLOGY: string :=
    "Désolé, je n'ai pas " + "pu générer une " + "réponse appropriée. " + "Comment puis-je vous " + "aider aujourd'hui?"
  const MAX_REPLY: nat := 500

  predicate StartsWithAny(s: string, prefixes: seq<string>)
  {
    prefixes != [] && (StartsWith(s, prefixes[0]) || StartsWithAny(s, prefixes[1..]))
  }

  lemma {:induction false} StartsWithAnyMeans(s: string, prefixes: seq<string>)
    ensures StartsWithAny(s, prefixes) <==> exists p :: p in prefixes && StartsWith(s, p)
  {
    if prefixes != [] {
      StartsWithAnyMeans(s, prefixes[1..]);
      assert prefixes == [prefixes[0]] + prefixes[1..];
    }
  }

  /** The English-opening test of `sanitizeResponse`, made on the lower-cased
      first 20 characters. */
  predicate OpensInEnglish(response: string)
    ensures OpensInEnglish(response) ==> |response| >= 2
  {
    var head := Lower(response[..if |response| < 20 then |response| else 20]);
    StartsWithAnyMeans(head, ENGLISH_OPENINGS);
    StartsWithAny(head, ENGLISH_OPENINGS)
  }

  /** `sanitizeResponse`: English openings give the apology, long replies are
      cut to 500 characters plus "...", anything else is kept. */
  function SanitizeResponse(response: string): (r: string)
    ensures |r| <= MAX_REPLY + 3
    ensures OpensInEnglish(response) ==> r == APOLOGY
    ensures !OpensInEnglish(response) && |response| <= MAX_REPLY ==> r == response
    ensures !OpensInEnglish(response) && |response| > MAX_REPLY ==>
      |r| == MAX_REPLY + 3 && r[..MAX_REPLY] == response[..MAX_REPLY] && r[MAX_REPLY..] == "..."
  {
    if OpensInEnglish(response) then APOLOGY
    else if |response| > MAX_REPLY then response[..MAX_REPLY] + "..."
    else response
  }

  /** Every English opening is shorter than 20 characters, so the test is
      the same as one made on the whole lower-cased reply. */
  lemma OpensInEnglishMeans(response: string)
    ensures OpensInEnglish(response) <==> exists p :: p in ENGLISH_OPENINGS && StartsWith(Lower(response), p)
  {
    var n := if |response| < 20 then |response| else 20;
    var head := Lower(response[..n]);
    StartsWithAnyMeans(head, ENGLISH_OPENINGS);
    assert head == Lower(response)[..n];
    forall p | p in ENGLISH_OPENINGS ensures StartsWith(head, p) <==> StartsWith(Lower(response), p) {
      assert |p| <= 14;
    }
  }

  /** The English test is made on a case-folded prefix, so "Hier" counts as
      an English "hi". */
  lemma HierIsRejected()
    ensures SanitizeResponse("Hier...") == APOLOGY
  {
    var l := Lower("Hier...");
    assert l[..2] == "hi";
    assert ENGLISH_OPENINGS[1] == "hi";
    assert StartsWith(l, ENGLISH_OPENINGS[1]);
    OpensInEnglishMeans("Hier...");
    assert OpensInEnglish("Hier...");
  }

  lemma LowerPrefix(s: string, n: nat)
    requires n <= |s|
    ensures Lower(s[..n]) == Lower(s)[..n]
  {
  }

  /** Only the first 20 characters take part in the English test. */
  lemma EnglishTestSeesTwentyChars(a: string, b: string)
    requires |a| >= 20 && |b| >= 20 && a[..20] == b[..20]
    ensures OpensInEnglish(a) <==> OpensInEnglish(b)
  {
  }

  /** Cleaning a cleaned reply changes nothing. */
  lemma {:induction false} SanitizeIsIdempotent(response: string)
    ensures SanitizeResponse(SanitizeResponse(response)) == SanitizeResponse(response)
  {
    if OpensInEnglish(response) {
      ApologyIsNotEnglish();
    } else if |response| > MAX_REPLY {
      CutIsClean(response);
    }
  }

  /** The apology does not open in English. */
  lemma ApologyIsNotEnglish()
    ensures !OpensInEnglish(APOLOGY)
  {
    assert APOLOGY[..20] == "Désolé, je n'ai pas ";
    var head := Lower(APOLOGY[..20]);
    assert head[0] == 'd' && head[1] == 'é';
    StartsWithAnyMeans(head, ENGLISH_OPENINGS);
  }

  /** A cut reply keeps the first 20 characters, so it passes the English
      test as the original did, and it is already short enough. */
  lemma CutIsClean(response: string)
    requires !OpensInEnglish(response) && |response| > MAX_REPLY
    ensures SanitizeResponse(SanitizeResponse(response)) == SanitizeResponse(response)
  {
    var r := SanitizeResponse(response);
    assert r[..20] == response[..20];
    EnglishTestSeesTwentyChars(r, response);
  }

  // ---------------------------------------------------------- reply tiers

  /** `maxTokens`: 50 below 10 characters, 100 below 30, 250 otherwise. */
  function MaxTokens(message: string): (n: nat)
    ensures n == 50 || n == 100 || n == 250
    ensures n == 50 <==> |message| < 10
    ensures n == 250 <==> |message| >= 30
  {
    if |message| < 10 then 50 else if |message| < 30 then 100 else 250
  }

  /** A longer message never gets a smaller reply budget. */
  lemma MaxTokensIsMonotone(a: string, b: string)
    requires |a| <= |b|
    ensures MaxTokens(a) <= MaxTokens(b)
  {
  }

  // --------------------------------------------------------- chat context

  /** A history entry; `sender` is 'Utilisateur' or 'Assistant'. */
  datatype Sender = User | Assistant
  datatype Entry = Entry(sender: Sender, text: string)

  datatype Role = SystemRole | UserRole | AssistantRole
  datatype ChatMessage = ChatMessage(role: Role, content: string)

  /** Role 'user' for the user's entries, 'assistant' for every other. */
  function AsChatMessage(e: Entry): ChatMessage
  {
    ChatMessage(if e.sender == User then UserRole else AssistantRole, e.text)
  }

  const INDENT: string := "                            "
  const OPENAI_SYSTEM_PROMPT: string :=
    "Vous êtes un assistant virtuel qui répond de manière concise et pertinente. \n"
    + INDENT + "Adaptez la longueur de votre réponse à la complexité de la question. \n"
    + INDENT + "Pour une question simple, répondez en 1-2 phrases. \n"
    + INDENT + "Ne fournissez pas d'informations non demandées.\n"
    + INDENT + "Répondez TOUJOURS en français, quelle que soit la langue de la question."

  /** The `messages` array sent to OpenAI: the system prompt, the last six
      history entries as user/assistant turns, then the new message. */
  method OpenAIMessages(history: seq<Entry>, message: string) returns (messages: seq<ChatMessage>)
    ensures var n := if |history| < 6 then |history| else 6;
      && |messages| == n + 2
      && messages[0] == ChatMessage(SystemRole, OPENAI_SYSTEM_PROMPT)
      && messages[n + 1] == ChatMessage(UserRole, message)
      && forall k :: 1 <= k <= n ==> messages[k] == AsChatMessage(history[|history| - n + k - 1])
  {
    messages := [ChatMessage(SystemRole, OPENAI_SYSTEM_PROMPT)];
    var n := if |history| < 6 then |history| else 6;
    var recent := history[|history| - n..];
    var i := 0;
    while i < n
      invariant 0 <= i <= n
      invariant |messages| == i + 1
      invariant messages[0] == ChatMessage(SystemRole, OPENAI_SYSTEM_PROMPT)
      invariant forall k :: 1 <= k <= i ==> messages[k] == AsChatMessage(recent[k - 1])
    {
      messages := messages + [AsChatMessage(recent[i])];
      i := i + 1;
    }
    messages := messages + [ChatMessage(UserRole, message)];
  }

  /** The Hugging Face prompt: a question (ending in '?') asks for a concise
      answer, anything else for a brief one. */
  function HuggingFacePrompt(message: string): (p: string)
    ensures |p| >= |message| && p[|p| - |message|..] == message
    ensures |message| > 0 && message[|message| - 1] == '?' ==>
      p == "Réponds de façon concise en français à cette question: " + message
    ensures !(|message| > 0 && message[|message| - 1] == '?') ==>
      p == "Réponds brièvement en français au message suivant: " + message
  {
    if |message| > 0 && message[|message| - 1] == '?'
    then "Réponds de façon concise en français à cette question: " + message
    else "Réponds brièvement en français au message suivant: " + message
  }

  // ------------------------------------------------------ provider choice

  /** The environment switches: a provider is used when its `USE_*` variable
      is exactly 'true' and its key is set. */
  datatype Env = Env(useOpenAI: string, openAIKey: string, useHuggingFace: string, huggingFaceKey: string,
                     useGemini: string, geminiKey: string)
  {
    predicate OpenAIOn() { useOpenAI == "true" && openAIKey != [] }
    predicate HuggingFaceOn() { useHuggingFace == "true" && huggingFaceKey != [] }
    predicate GeminiOn() { useGemini == "true" && geminiKey != [] }
  }

  datatype Source = Predefined | OpenAI | HuggingFace | Gemini | Fallback
  datatype Answer = Answer(reply: string, source: Source)

  const FALLBACK_REPLY: string := "Désolé, je ne peux pas traiter votre demande pour le moment. Veuillez réessayer plus tard."

  /** The reply of `processVoiceInput` for a non-empty message. Each provider
      outcome is `Some(text)` when the call returned a usable reply (for
      Hugging Face, the text after its own clean-up) and `None` when it threw
      or returned nothing; `greeting` is the random index. */
  function ChooseReply(message: string, env: Env, greeting: nat, openAI: Option<string>,
                       huggingFace: Option<string>, gemini: Option<string>): (a: Answer)
    requires greeting < |GREETINGS|
    ensures a.source == Predefined <==> IsSimpleGreeting(message)
    ensures a.source == Predefined ==> a.reply in GREETINGS
    ensures a.source == OpenAI ==> env.OpenAIOn() && openAI.Some? && a.reply == SanitizeResponse(openAI.value)
    ensures a.source == HuggingFace ==>
      && !(env.OpenAIOn() && openAI.Some?)
      && env.HuggingFaceOn() && huggingFace.Some? && a.reply == SanitizeResponse(huggingFace.value)
    ensures a.source == Gemini ==>
      && !(env.OpenAIOn() && openAI.Some?) && !(env.HuggingFaceOn() && huggingFace.Some?)
      && env.GeminiOn() && gemini.Some? && a.reply == SanitizeResponse(gemini.value)
    ensures a.source == Fallback <==>
      && !IsSimpleGreeting(message) && !(env.OpenAIOn() && openAI.Some?)
      && !(env.HuggingFaceOn() && huggingFace.Some?) && !(env.GeminiOn() && gemini.Some?)
    ensures a.source == Fallback ==> a.reply == FALLBACK_REPLY
  {
    if IsSimpleGreeting(message) then Answer(GREETINGS[greeting], Predefined)
    else if env.OpenAIOn() && openAI.Some? then Answer(SanitizeResponse(openAI.value), OpenAI)
    else if env.HuggingFaceOn() && huggingFace.Some? then Answer(SanitizeResponse(huggingFace.value), HuggingFace)
    else if env.GeminiOn() && gemini.Some? then Answer(SanitizeResponse(gemini.value), Gemini)
    else Answer(FALLBACK_REPLY, Fallback)
  }

  /** Every reply, whatever its source, fits in 503 characters. */
  lemma ReplyIsBounded(message: string, env: Env, greeting: nat, openAI: Option<string>,
                       huggingFace: Option<string>, gemini: Option<string>)
    requires greeting < |GREETINGS|
    ensures |ChooseReply(message, env, greeting, openAI, huggingFace, gemini).reply| <= MAX_REPLY + 3
  {
    var a := ChooseReply(message, env, greeting, openAI, huggingFace, gemini);
    if a.source == Predefined {
      GreetingsFit(greeting);
    } else if a.source == Fallback {
      FallbackFits();
    }
  }

  lemma GreetingsFit(i: nat)
    requires i < |GREETINGS|
    ensures |GREETINGS[i]| <= MAX_REPLY + 3
  {
  }

  lemma FallbackFits()
    ensures |FALLBACK_REPLY| <= MAX_REPLY + 3
  {
  }

  /** A working, enabled OpenAI always wins over the other providers. */
  lemma OpenAIComesFirst(message: string, env: Env, greeting: nat, text: string,
                         huggingFace: Option<string>, gemini: Option<string>)
    requires greeting < |GREETINGS| && env.OpenAIOn() && !IsSimpleGreeting(message)
    ensures ChooseReply(message, env, greeting, Some(text), huggingFace, gemini) == Answer(SanitizeResponse(text), OpenAI)
  {
  }

  // ------------------------------------------------------------- history

  const MAX_HISTORY: nat := 50

  /** One exchange as stored: the user's message, then the assistant's. */
  function Exchange(message: string, reply: string): seq<Entry>
  {
    [Entry(User, message), Entry(Assistant, reply)]
  }

  /** The cap of `saveHistory`: over 50 entries, the oldest pair goes. */
  function Capped(h: seq<Entry>): (r: seq<Entry>)
    ensures |h| > MAX_HISTORY ==> |r| == |h| - 2
    ensures |h| <= MAX_HISTORY ==> r == h
    ensures r == h[|h| - |r|..]
  {
    if |h| > MAX_HISTORY then h[2..] else h
  }

  /** `saveHistory` keeps a history of at most 50 entries within 50, never
      lets one grow past its old length or 50, and keeps the new exchange
      as its last two entries. */
  lemma {:induction false} SaveKeepsBound(h: seq<Entry>, message: string, reply: string)
    ensures var r := Capped(h + Exchange(message, reply));
      && (|h| <= MAX_HISTORY ==> |r| <= MAX_HISTORY)
      && (|r| <= |h| || |r| <= MAX_HISTORY)
      && |r| >= 2 && r[|r| - 2..] == Exchange(message, reply)
  {
    var full := h + Exchange(message, reply);
    var r := Capped(full);
    assert r == full[|full| - |r|..];
    assert |r| >= 2;
    assert r[|r| - 2..] == full[|full| - 2..];
  }

  /** The history `processVoiceInput` leaves behind is the uncapped append.
      From a full history it exceeds 50, and it keeps the oldest exchange
      that `saveHistory`'s cap would have dropped. */
  lemma ProcessDoesNotCap(h: seq<Entry>, message: string, reply: string)
    requires |h| == MAX_HISTORY
    ensures |h + Exchange(message, reply)| == MAX_HISTORY + 2
    ensures Capped(h + Exchange(message, reply)) == (h + Exchange(message, reply))[2..]
    ensures (h + Exchange(message, reply))[..2] == h[..2]
  {
  }

  /** The in-memory `conversationHistory` map, keyed by user id. */
  class ConversationStore {
    var histories: map<nat, seq<Entry>>

    constructor ()
      ensures histories == map[]
    {
      histories := map[];
    }

    /** `getHistory`: the stored list, or an empty one for an unknown user. */
    function GetHistory(userId: nat): (h: seq<Entry>)
      reads this
      ensures userId in histories ==> h == histories[userId]
      ensures userId !in histories ==> h == []
    {
      if userId in histories then histories[userId] else []
    }

    /** `processVoiceInput`: an empty message is a 400 that touches nothing;
        otherwise the chosen reply is returned and the exchange appended to
        that user's history, and only to it. */
    method ProcessVoiceInput(userId: nat, message: string, env: Env, greeting: nat, openAI: Option<string>,
                             huggingFace: Option<string>, gemini: Option<string>)
      returns (r: Result<Answer, string>)
      requires greeting < |GREETINGS|
      modifies this
      ensures message == [] ==> r == Err("Message requis") && histories == old(histories)
      ensures message != [] ==> r == Ok(ChooseReply(message, env, greeting, openAI, huggingFace, gemini))
      ensures message != [] ==>
        histories == old(histories)[userId := old(GetHistory(userId)) + Exchange(message, r.value.reply)]
      ensures message != [] ==> |histories[userId]| == |old(GetHistory(userId))| + 2
      ensures message != [] && |old(GetHistory(userId))| >= MAX_HISTORY ==> |histories[userId]| > MAX_HISTORY
    {
      if message == [] {
        return Err("Message requis");
      }
      var answer := ChooseReply(message, env, greeting, openAI, huggingFace, gemini);
      histories := histories[userId := GetHistory(userId) + Exchange(message, answer.reply)];
      r := Ok(answer);
    }

    /** `saveHistory`: both messages are required (400 otherwise, nothing
        changes); the exchange is appended and the history capped. */
    method SaveHistory(userId: nat, userMessage: string, assistantReply: string) returns (r: Result<(), string>)
      modifies this
      ensures userMessage == [] || assistantReply == [] ==> r == Err("Messages requis") && histories == old(histories)
      ensures userMessage != [] && assistantReply != [] ==>
        r == Ok(()) &&
        histories == old(histories)[userId := Capped(old(GetHistory(userId)) + Exchange(userMessage, assistantReply))]
    {
      if userMessage == [] || assistantReply == [] {
        return Err("Messages requis");
      }
      var h := GetHistory(userId) + Exchange(userMessage, assistantReply);
      if |h| > MAX_HISTORY {
        h := h[2..];
      }
      histories := histories[userId := h];
      r := Ok(());
    }
  }
}
