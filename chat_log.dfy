/**
 * The chat panel (src/components/AICoach.jsx): a message log that starts
 * with a greeting naming the streak, an input field and a `loading` flag.
 * A send is accepted only with non-blank input and no reply outstanding;
 * it appends the user's message, clears the input and sets `loading`; the
 * reply, when it arrives, is appended as a model message and clears
 * `loading`. Messages are only ever appended.
 */
module ChatLog {
  import opened Wrappers
  import opened Text
  import opened Coach

  const GreetingHead: string := "¡Hola! Soy tu coach. Llevas una racha de "
  const GreetingTail: string := " días. ¿Entrenamos hoy? 💪"

  /** The opening model message. */
  function Greeting(currentStreak: int): string
  {
    GreetingHead + IntToDecimal(currentStreak) + GreetingTail
  }

  /** The greeting states the streak: different streaks give different greetings. */
  lemma {:induction false} GreetingNamesStreak(a: int, b: int)
    ensures Greeting(a) == Greeting(b) <==> a == b
  {
    if Greeting(a) == Greeting(b) {
      var da, db := IntToDecimal(a), IntToDecimal(b);
      assert |da| == |db|;
      assert da == Greeting(a)[|GreetingHead|..|GreetingHead| + |da|];
      assert db == Greeting(b)[|GreetingHead|..|GreetingHead| + |db|];
      IntToDecimalInjective(a, b);
    }
  }

  class AICoach {
    /** The `currentStreak` prop at mount: `useState` reads it once, for the greeting. */
    const initialStreak: int
    var input: string
    var messages: seq<Message>
    var loading: bool

    /** The log always opens with the greeting, and while a reply is awaited the newest message is the user's. */
    ghost predicate Valid()
      reads this
    {
      && |messages| >= 1
      && messages[0] == Message("model", Some(Greeting(initialStreak)))
      && (loading ==> messages[|messages| - 1].role == "user")
    }

    constructor (currentStreak: int)
      ensures Valid() && initialStreak == currentStreak
      ensures messages == [Message("model", Some(Greeting(currentStreak)))]
      ensures input == "" && !loading
    {
      initialStreak := currentStreak;
      input := "";
      messages := [Message("model", Some(Greeting(currentStreak)))];
      loading := false;
    }

    /** The input field's `onChange`. */
    method SetInput(text: string)
      requires Valid()
      modifies this
      ensures Valid()
      ensures input == text && messages == old(messages) && loading == old(loading)
    {
      input := text;
    }

    /**
     * The first half of `handleSend`. Blank input or a reply still awaited:
     * nothing changes. Otherwise the user's message is appended, the input
     * cleared and `loading` set; `history` (the log before the send plus the
     * new message) and `text` are what the coach is asked with.
     */
    method Send() returns (accepted: bool, history: seq<Message>, text: string)
      requires Valid()
      modifies this
      ensures Valid()
      ensures accepted <==> !IsBlank(old(input)) && !old(loading)
      ensures !accepted ==> messages == old(messages) && input == old(input) && loading == old(loading)
      ensures accepted ==>
        && messages == old(messages) + [Message("user", Some(old(input)))]
        && input == "" && loading
        && history == messages && text == old(input)
    {
      if Trim(input) == "" || loading {
        return false, [], "";
      }
      var userMsg := Message("user", Some(input));
      history, text := messages + [userMsg], input;
      messages := messages + [userMsg];
      input := "";
      loading := true;
      accepted := true;
    }

    /** The second half of `handleSend`: the reply, possibly undefined, is appended as a model message. */
    method Receive(reply: Option<string>)
      requires Valid() && loading
      modifies this
      ensures Valid()
      ensures messages == old(messages) + [Message("model", reply)]
      ensures !loading && input == old(input)
    {
      messages := messages + [Message("model", reply)];
      loading := false;
    }

    /**
     * `handleSend` with the reply arriving before any other event: an
     * accepted send grows the log by the user's message and the coach's
     * answer to the full history, keeping every earlier message. The
     * coach is told the `currentStreak` prop as it is at the time of the
     * send, which may differ from the one the greeting was built with.
     * `requested` and `body` are the endpoints tried and the request body.
     */
    method HandleSend(currentStreak: int, apiKey: Option<string>, network: (string, seq<Content>) -> Attempt, pick: nat)
      returns (accepted: bool, reply: Option<string>, requested: seq<string>, body: seq<Content>)
      requires Valid() && pick < |BackupResponses|
      modifies this
      ensures Valid()
      ensures accepted <==> !IsBlank(old(input)) && !old(loading)
      ensures !accepted ==> messages == old(messages) && input == old(input) && loading == old(loading)
      ensures accepted ==>
        var history := old(messages) + [Message("user", Some(old(input)))];
        && messages == history + [Message("model", reply)]
        && IsCoachAnswer(history, Some(StreakData(Some(currentStreak))), apiKey, network, pick, reply, requested, body)
        && input == "" && !loading
      ensures accepted && !HasKey(apiKey) ==> reply == Some(Fallback(pick))
    {
      var history, text;
      accepted, history, text := Send();
      if !accepted {
        return false, None, [], [];
      }
      reply, requested, body := SendMessageToCoach(history, text, Some(StreakData(Some(currentStreak))), apiKey, network, pick);
      Receive(reply);
    }
  }
}
