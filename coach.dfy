/**
 * The coach client (src/lib/gemini.js): rewrites the chat history into a
 * request for the text-generation service, tries the endpoints in order,
 * and falls back to a canned motivational line when there is no API key or
 * no endpoint answers.
 *
 * The network is a parameter: `network(url, contents)` is what one POST of
 * `contents` to `url` ends in. The random choice of canned line is the
 * index `pick`.
 */
module Coach {
  import opened Wrappers
  import opened Text

  /** A chat message as the UI keeps it; a reply can be `undefined`, hence the Option. */
  datatype Message = Message(role: string, content: Option<string>)

  datatype Role = User | Model

  /** An entry of the request's `contents`: a role and its single text part. */
  datatype Content = Content(role: Role, text: Option<string>)

  /** The `streakData` argument; either it or its `currentStreak` may be absent. */
  datatype StreakData = StreakData(currentStreak: Option<int>)

  /** How one request ends: an OK response whose body may lack the reply text, a non-OK status, or a thrown error. */
  datatype Attempt = Ok(text: Option<string>) | NotOk | Thrown

  const BackupResponses: seq<string> := [
    "¡Sigue así! La consistencia es la clave del éxito. 💪",
    "No importa cuán lento vayas, siempre y cuando no te detengas. 🐢➡️🐇",
    "Cada día cuenta. ¡Hoy es un gran día para sumar a tu racha! 🔥",
    "El dolor es temporal, la gloria de la racha es eterna. 🏆",
    "¡Vamos! Un día más, una victoria más. ✨",
    "Recuerda por qué empezaste. ¡Tú puedes! 🚀",
    "La disciplina te llevará donde la motivación no alcanza. 🧠"
  ]

  const OfflineTag: string := " (Coach Offline 🤖)"

  const Endpoints: seq<string> := [
    "https://generativelanguage.googleapis.com/v1beta/models/gemini-2.0-flash:generateContent",
    "https://generativelanguage.googleapis.com/v1beta/models/gemini-1.5-flash-001:generateContent"
  ]

  const Acknowledgement: string := "Entendido."
  const PromptHead: string := "Eres 'Racha Coach'. Tu objetivo es motivar al usuario.\n        Datos: Racha actual "
  const PromptTail: string := " días.\n        Sé breve, usa emojis y responde en español."
  const SystemMarker: string := "[SYSTEM]: "

  // ---------------------------------------------------------------- prompt

  /** `streakData?.currentStreak || 0`: an absent value (or a falsy 0) becomes 0. */
  function EffectiveStreak(sd: Option<StreakData>): int
  {
    if sd.Some? then sd.value.currentStreak.GetOr(0) else 0
  }

  /** The system prompt with the streak written into it. */
  function SystemPrompt(sd: Option<StreakData>): string
  {
    PromptHead + IntToDecimal(EffectiveStreak(sd)) + PromptTail
  }

  /**
   * The prompt tells the coach the streak and nothing else varies: an
   * absent `streakData` or an absent `currentStreak` reads as "0", and two prompts are equal exactly when
   * the streaks they were built from are.
   */
  lemma {:induction false} SystemPromptCarriesStreak(a: Option<StreakData>, b: Option<StreakData>)
    ensures a.None? || a.value.currentStreak.None? ==> IntToDecimal(EffectiveStreak(a)) == "0"
    ensures SystemPrompt(a) == SystemPrompt(b) <==> EffectiveStreak(a) == EffectiveStreak(b)
  {
    if SystemPrompt(a) == SystemPrompt(b) {
      var pa, pb := SystemPrompt(a), SystemPrompt(b);
      var da, db := IntToDecimal(EffectiveStreak(a)), IntToDecimal(EffectiveStreak(b));
      assert |da| == |db|;
      assert da == pa[|PromptHead|..|PromptHead| + |da|];
      assert db == pb[|PromptHead|..|PromptHead| + |db|];
      IntToDecimalInjective(EffectiveStreak(a), EffectiveStreak(b));
    }
  }

  /** The synthetic user turn that opens every request. */
  function SystemMessage(sd: Option<StreakData>): Content
  {
    Content(User, Some(SystemMarker + SystemPrompt(sd)))
  }

  // ---------------------------------------------------------------- request

  /** One history entry as a request entry: role `user` stays, any other role becomes `model`. */
  function ToContent(m: Message): Content
  {
    Content(if m.role == "user" then User else Model, m.content)
  }

  /** `c` carries the content of `m`, with role user exactly when `m`'s role is "user". */
  predicate Converts(c: Content, m: Message)
  {
    c.text == m.content && (c.role == User <==> m.role == "user")
  }

  /** Whether the first history entry is dropped: it is, exactly when it converts to a model turn. */
  predicate DropsLeadingTurn(history: seq<Message>)
  {
    |history| > 0 && history[0].role != "user"
  }

  /**
   * `contents` is the request for `history`: the system turn, the model's
   * "Entendido." and then every history entry in order, each with its
   * content and with role user exactly when its role was "user" — minus the
   * first entry when that one was not a user turn.
   */
  ghost predicate IsRequestFor(history: seq<Message>, sd: Option<StreakData>, contents: seq<Content>)
  {
    var skip := if DropsLeadingTurn(history) then 1 else 0;
    && |contents| == |history| - skip + 2
    && contents[0] == SystemMessage(sd)
    && contents[1] == Content(Model, Some(Acknowledgement))
    && forall j :: 2 <= j < |contents| ==> Converts(contents[j], history[j - 2 + skip])
  }

  /**
   * Building the request: map each entry's role, `shift()` a leading model
   * turn off, then put the system turn and the acknowledgement in front.
   */
  method BuildContents(history: seq<Message>, sd: Option<StreakData>) returns (contents: seq<Content>)
    ensures IsRequestFor(history, sd, contents)
  {
    contents := seq(|history|, i requires 0 <= i < |history| => ToContent(history[i]));
    if |contents| > 0 && contents[0].role == Model {
      contents := contents[1..];
    }
    ghost var skip := if DropsLeadingTurn(history) then 1 else 0;
    forall j | 0 <= j < |contents| ensures Converts(contents[j], history[j + skip]) {
      assert contents[j] == ToContent(history[j + skip]);
    }
    ghost var rest := contents;
    contents := [SystemMessage(sd), Content(Model, Some(Acknowledgement))] + contents;
    forall j | 2 <= j < |contents| ensures Converts(contents[j], history[j - 2 + skip]) {
      assert contents[j] == rest[j - 2];
    }
  }

  /**
   * The request grows the history by two turns, or by one when a leading
   * model turn was dropped; after the preamble it never starts with the
   * dropped turn, and the newest history entry is the last turn sent.
   */
  lemma RequestShape(history: seq<Message>, sd: Option<StreakData>, contents: seq<Content>)
    requires IsRequestFor(history, sd, contents)
    ensures |contents| == |history| + 2 - (if DropsLeadingTurn(history) then 1 else 0)
    ensures |history| > 0 && !DropsLeadingTurn(history) ==> contents[2] == ToContent(history[0])
    ensures |history| > 1 || (|history| == 1 && !DropsLeadingTurn(history)) ==>
      contents[|contents| - 1] == ToContent(history[|history| - 1])
  {
  }

  // ---------------------------------------------------------------- fallback

  /** The offline reply: canned line number `pick` followed by the offline tag. */
  function Fallback(pick: nat): (r: string)
    requires pick < |BackupResponses|
    ensures |r| > |OfflineTag|
    ensures r[..|r| - |OfflineTag|] in BackupResponses
    ensures r[|r| - |OfflineTag|..] == OfflineTag
  {
    BackupResponses[pick] + OfflineTag
  }

  /** The URL requested for endpoint `i` with API key `key`. */
  function EndpointUrl(i: nat, key: string): string
    requires i < |Endpoints|
  {
    Endpoints[i] + "?key=" + key
  }

  /** `if (API_KEY)`: the key is set and not the empty string. */
  predicate HasKey(apiKey: Option<string>)
  {
    apiKey.Some? && apiKey.value != ""
  }

  /**
   * `reply` is what `sendMessageToCoach` answers for `history`, with the
   * URLs `requested` in that order and `body` posted to each. With no API
   * key nothing is requested and the reply is the fallback. Otherwise the
   * endpoints are requested in list order with the request for `history`
   * as body, each only after every earlier one answered non-OK; the first
   * OK response's text (possibly undefined) is the reply; a thrown error,
   * or a non-OK answer from the last endpoint, gives the fallback.
   */
  ghost predicate IsCoachAnswer(history: seq<Message>, sd: Option<StreakData>, apiKey: Option<string>,
                                network: (string, seq<Content>) -> Attempt, pick: nat,
                                reply: Option<string>, requested: seq<string>, body: seq<Content>)
    requires pick < |BackupResponses|
  {
    && (!HasKey(apiKey) ==> requested == [] && reply == Some(Fallback(pick)))
    && (HasKey(apiKey) ==>
      && IsRequestFor(history, sd, body)
      && 0 < |requested| <= |Endpoints|
      && (forall i :: 0 <= i < |requested| ==> requested[i] == EndpointUrl(i, apiKey.value))
      && (forall i :: 0 <= i < |requested| - 1 ==> network(requested[i], body) == NotOk)
      && (|requested| < |Endpoints| ==> network(requested[|requested| - 1], body) != NotOk)
      && (network(requested[|requested| - 1], body).Ok? ==> reply == network(requested[|requested| - 1], body).text)
      && (!network(requested[|requested| - 1], body).Ok? ==> reply == Some(Fallback(pick))))
  }

  /**
   * `sendMessageToCoach(history, message, streakData)`: builds the request,
   * then tries the endpoints in order, returning on the first OK response
   * and falling back on a thrown error or when every endpoint is non-OK.
   * `message` is not used: the history already ends with it.
   */
  method SendMessageToCoach(history: seq<Message>, message: string, sd: Option<StreakData>,
                            apiKey: Option<string>, network: (string, seq<Content>) -> Attempt, pick: nat)
    returns (reply: Option<string>, requested: seq<string>, body: seq<Content>)
    requires pick < |BackupResponses|
    ensures IsCoachAnswer(history, sd, apiKey, network, pick, reply, requested, body)
  {
    requested, body := [], [];
    if HasKey(apiKey) {
      body := BuildContents(history, sd);
      var i := 0;
      while i < |Endpoints|
        invariant 0 <= i <= |Endpoints|
        invariant |requested| == i
        invariant forall k :: 0 <= k < i ==> requested[k] == EndpointUrl(k, apiKey.value)
        invariant forall k :: 0 <= k < i ==> network(requested[k], body) == NotOk
      {
        var url := EndpointUrl(i, apiKey.value);
        requested := requested + [url];
        var response := network(url, body);
        if response.Ok? {
          return response.text, requested, body;
        } else if response.Thrown? {
          break;
        }
        i := i + 1;
      }
    }
    reply := Some(Fallback(pick));
  }

  /**
   * Without a key, or when the first endpoint throws, the coach's reply is
   * one of the seven canned lines with the offline tag appended, and so is
   * never empty.
   */
  lemma OfflineReplyIsTaggedCannedLine(history: seq<Message>, sd: Option<StreakData>, apiKey: Option<string>,
                                       network: (string, seq<Content>) -> Attempt, pick: nat,
                                       reply: Option<string>, requested: seq<string>, body: seq<Content>)
    requires pick < |BackupResponses|
    requires IsCoachAnswer(history, sd, apiKey, network, pick, reply, requested, body)
    requires !HasKey(apiKey) || network(EndpointUrl(0, apiKey.value), body).Thrown?
    ensures reply.Some? && reply.value != ""
    ensures exists line :: line in BackupResponses && reply.value == line + OfflineTag
  {
    if HasKey(apiKey) {
      assert requested[0] == EndpointUrl(0, apiKey.value);
      assert |requested| == 1;
    }
    assert reply.value == BackupResponses[pick] + OfflineTag;
  }
}
