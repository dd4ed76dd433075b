/** The conversation state machine of the demo window (`MockSupportBot.MockFSM`
    in demo.py) and the quit/exit short-circuit that both chat windows
    (demo.py and main.py) apply before a turn reaches the machine. */
module SupportFsm {
  import opened Text
  import opened Outcome

  // ---------------------------------------------------------------------------
  // States, replies and the word lists the machine tests for
  // ---------------------------------------------------------------------------

  const StartState: string := "START"
  const ConfirmState: string := "CONFIRM"
  const IdentifiedState: string := "IDENTIFIED"
  const EndState: string := "END"

  const NameReceived: string := "Thank you! You provided your name. Is this correct? (yes/no)"
  const AskName: string := "Please provide your name to get started."
  const ConfirmedReply: string := "Thank you for confirming your details. How can I help you today?"
  const RetryReply: string := "Let's try again. Please provide your name."
  const ClarifyReply: string := "I didn't understand your response. Please reply with 'yes' if the information is correct, or 'no' if it needs to be changed."
  const FarewellReply: string := "Thank you for contacting us! Have a great day!"
  const AnythingElseReply: string := "I understand your concern. Is there anything else I can help you with today?"
  const GoodbyeReply: string := "Goodbye!"

  /** What the window shows when the user types quit or exit. */
  const QuitNotice: string := "Agent: Conversation ended. Thank you!"
  /** What the window streams after a turn that completed the conversation. */
  const EndedNotice: string := "Conversation ended. Thank you!"

  const PositiveIndicators: seq<string> :=
    ["yes", "y", "correct", "true", "confirm", "confirmed", "right", "accurate"]
  const NegativeIndicators: seq<string> :=
    ["no", "n", "incorrect", "false", "wrong", "not correct", "not right"]
  /** The words that veto a positive answer, as the demo lists them. */
  const NegationWords: seq<string> := ["not", "no", "isn't", "aren't", "don't"]
  /** The veto list with "incorrect" added (see `ConfirmVerdict`). */
  const CorrectedNegationWords: seq<string> := ["not", "no", "isn't", "aren't", "don't", "incorrect"]
  const FarewellCues: seq<string> := ["bye", "goodbye", "done", "finished", "quit", "exit"]

  /** The transitions `run_state_machine` can make: START -> CONFIRM,
      CONFIRM -> IDENTIFIED, CONFIRM -> START and IDENTIFIED -> END. */
  predicate Edge(from: string, to: string) {
    (from == StartState && to == ConfirmState)
    || (from == ConfirmState && (to == IdentifiedState || to == StartState))
    || (from == IdentifiedState && to == EndState)
  }

  // ---------------------------------------------------------------------------
  // One turn, as a value
  // ---------------------------------------------------------------------------

  /** The outcome of a turn: the state passed to `set_next_state`, if the turn
      calls it, and the reply. */
  datatype Turn = Turn(next: Option<string>, reply: string)

  /** The START test: the lowered input mentions "name", or some
      whitespace-separated word is alphabetic and longer than two letters. */
  predicate ProvidesName(input: string) {
    var words := Words(input);
    Contains(Lower(input), "name")
    || exists k :: 0 <= k < |words| && |words[k]| > 2 && IsAlphaWord(words[k])
  }

  /** How the CONFIRM state reads an answer. */
  datatype Verdict = Confirmed | Rejected | Unclear

  /** The CONFIRM test on the lowered, stripped answer, for a given list of
      veto words: a positive indicator with none of the veto words confirms;
      otherwise a negative indicator rejects; otherwise the answer is
      unclear. */
  function ReadAnswer(answer: string, vetoes: seq<string>): (v: Verdict)
    ensures v == Confirmed <==> ContainsAny(answer, PositiveIndicators) && !ContainsAny(answer, vetoes)
    ensures v == Unclear <==> !(v == Confirmed) && !ContainsAny(answer, NegativeIndicators)
  {
    if ContainsAny(answer, PositiveIndicators) && !ContainsAny(answer, vetoes) then Confirmed
    else if ContainsAny(answer, NegativeIndicators) then Rejected
    else Unclear
  }

  /** The CONFIRM test as the demo writes it, with its five veto words. */
  function ConfirmVerdictAsWritten(answer: string): (v: Verdict)
    ensures v == Confirmed <==> ContainsAny(answer, PositiveIndicators) && !ContainsAny(answer, NegationWords)
    ensures v == Rejected <==>
      !(ContainsAny(answer, PositiveIndicators) && !ContainsAny(answer, NegationWords))
      && ContainsAny(answer, NegativeIndicators)
  {
    ReadAnswer(answer, NegationWords)
  }

  /** The CONFIRM test with "incorrect" among the veto words, so that the
      negative indicator "incorrect" is never read as the positive "correct". */
  function ConfirmVerdict(answer: string): (v: Verdict)
    ensures v == Confirmed <==> ContainsAny(answer, PositiveIndicators) && !ContainsAny(answer, CorrectedNegationWords)
    ensures v == Rejected <==>
      !(ContainsAny(answer, PositiveIndicators) && !ContainsAny(answer, CorrectedNegationWords))
      && ContainsAny(answer, NegativeIndicators)
  {
    ReadAnswer(answer, CorrectedNegationWords)
  }

  /** The IDENTIFIED test: the lowered input mentions a farewell cue. */
  predicate SaysFarewell(input: string) {
    ContainsAny(Lower(input), FarewellCues)
  }

  /** One turn of `run_state_machine` without its random delay, for a given
      list of veto words in the CONFIRM state. Every state change is one of
      the transitions `Edge` lists. */
  function DecideWith(vetoes: seq<string>, state: string, input: string): (t: Turn)
    ensures t.next.Some? ==> Edge(state, t.next.value)
  {
    if state == StartState then
      if ProvidesName(input) then Turn(Some(ConfirmState), NameReceived)
      else Turn(None, AskName)
    else if state == ConfirmState then
      match ReadAnswer(Strip(Lower(input)), vetoes)
      case Confirmed => Turn(Some(IdentifiedState), ConfirmedReply)
      case Rejected => Turn(Some(StartState), RetryReply)
      case Unclear => Turn(None, ClarifyReply)
    else if state == IdentifiedState then
      if SaysFarewell(input) then Turn(Some(EndState), FarewellReply)
      else Turn(None, AnythingElseReply)
    else Turn(None, GoodbyeReply)
  }

  /** `run_state_machine` as the demo writes it: the turn taken from `state`
      on `input`. Every state change is one of the transitions `Edge` lists. */
  function Decide(state: string, input: string): (t: Turn)
    ensures t.next.Some? ==> Edge(state, t.next.value)
  {
    DecideWith(NegationWords, state, input)
  }

  /** The same turn with "incorrect" among the veto words (see
      `ConfirmVerdict`). */
  function DecideCorrected(state: string, input: string): (t: Turn)
    ensures t.next.Some? ==> Edge(state, t.next.value)
  {
    DecideWith(CorrectedNegationWords, state, input)
  }

  /** The state after a turn. */
  function After(state: string, t: Turn): string {
    if t.next.Some? then t.next.value else state
  }

  /** The `set_next_state` calls a turn makes: none or one. */
  function Calls(t: Turn): seq<string> {
    if t.next.Some? then [t.next.value] else []
  }

  /** The state reached from `state` after the given inputs. */
  function Run(state: string, inputs: seq<string>): string
    decreases |inputs|
  {
    if inputs == [] then state
    else Run(After(state, Decide(state, inputs[0])), inputs[1..])
  }

  /** `user_input.lower() in ["quit", "exit"]`, the check both chat windows
      make before a turn reaches the machine. */
  predicate IsQuitCommand(input: string) {
    Lower(input) == "quit" || Lower(input) == "exit"
  }

  // ---------------------------------------------------------------------------
  // The machine as the demo keeps it
  // ---------------------------------------------------------------------------

  class MockFsm {
    var currentState: string
    var completed: bool
    /** Every state passed to `set_next_state`, in order. */
    ghost var history: seq<string>

    /** The fields agree with the calls made so far: the current state is the
        last one set (START before any), and the machine is completed exactly
        when END has been set at some point. */
    ghost predicate Valid()
      reads this
    {
      currentState == (if history == [] then StartState else history[|history| - 1])
      && (completed <==> EndState in history)
    }

    /** `__init__` */
    constructor ()
      ensures Valid()
      ensures currentState == StartState && !completed && history == []
    {
      currentState := StartState;
      completed := false;
      history := [];
    }

    /** `is_completed`: whether END has ever been set. */
    function IsCompleted(): (r: bool)
      requires Valid()
      reads this
      ensures r <==> EndState in history
    {
      completed
    }

    /** `set_next_state`: records the new state and marks completion when it
        is END; completion is never withdrawn. */
    method SetNextState(state: string)
      requires Valid()
      modifies this
      ensures Valid()
      ensures history == old(history) + [state]
      ensures currentState == state
      ensures completed == (old(completed) || state == EndState)
    {
      currentState := state;
      if state == EndState {
        completed := true;
      }
      history := history + [state];
    }

    /** `run_state_machine`: one turn, making at most one `set_next_state`
        call, as `Decide` says. */
    method Step(input: string) returns (reply: string)
      requires Valid()
      modifies this
      ensures Valid()
      ensures var t := Decide(old(currentState), input);
        reply == t.reply
        && history == old(history) + Calls(t)
        && currentState == After(old(currentState), t)
        && completed == (old(completed) || t.next == Some(EndState))
    {
      if currentState == StartState {
        if ProvidesName(input) {
          SetNextState(ConfirmState);
          reply := NameReceived;
        } else {
          reply := AskName;
        }
      } else if currentState == ConfirmState {
        match ConfirmVerdictAsWritten(Strip(Lower(input))) {
          case Confirmed =>
            SetNextState(IdentifiedState);
            reply := ConfirmedReply;
          case Rejected =>
            SetNextState(StartState);
            reply := RetryReply;
          case Unclear =>
            reply := ClarifyReply;
        }
      } else if currentState == IdentifiedState {
        if SaysFarewell(input) {
          SetNextState(EndState);
          reply := FarewellReply;
        } else {
          reply := AnythingElseReply;
        }
      } else {
        reply := GoodbyeReply;
      }
    }
  }

  /** `process_chat` of the demo window, without its GUI and pacing: quit or
      exit ends the conversation without a turn; any other input runs one turn
      and shows its reply, followed by the closing notice once the machine is
      completed. */
  method ProcessChat(fsm: MockFsm, input: string) returns (shown: seq<string>)
    requires fsm.Valid()
    modifies fsm
    ensures fsm.Valid()
    ensures IsQuitCommand(input) ==>
      fsm.history == old(fsm.history) + [EndState] && fsm.currentState == EndState
      && fsm.completed && shown == [QuitNotice]
    ensures !IsQuitCommand(input) ==>
      var t := Decide(old(fsm.currentState), input);
      fsm.history == old(fsm.history) + Calls(t)
      && fsm.currentState == After(old(fsm.currentState), t)
      && shown == [t.reply] + (if fsm.completed then [EndedNotice] else [])
  {
    if IsQuitCommand(input) {
      fsm.SetNextState(EndState);
      shown := [QuitNotice];
      return;
    }
    var reply := fsm.Step(input);
    shown := [reply];
    if fsm.IsCompleted() {
      shown := shown + [EndedNotice];
    }
  }

  // ---------------------------------------------------------------------------
  // Properties of a turn
  // ---------------------------------------------------------------------------

  /** In START the machine moves to CONFIRM exactly when the input provides a
      name; otherwise it stays and asks for the name. */
  lemma StartTurn(input: string)
    ensures Decide(StartState, input).next == Some(ConfirmState) <==> ProvidesName(input)
    ensures !ProvidesName(input) ==> Decide(StartState, input) == Turn(None, AskName)
  {
  }

  /** A word mentioning the name, in any case, is enough to move on. */
  lemma NameMentionMovesOn(input: string)
    requires Contains(Lower(input), "name")
    ensures Decide(StartState, input) == Turn(Some(ConfirmState), NameReceived)
  {
  }

  /** CONFIRM moves to IDENTIFIED exactly on a positive indicator with none
      of the five veto words. */
  lemma ConfirmOnlyOnUnvetoedPositive(input: string)
    ensures var answer := Strip(Lower(input));
      Decide(ConfirmState, input).next == Some(IdentifiedState) <==>
        ContainsAny(answer, PositiveIndicators) && !ContainsAny(answer, NegationWords)
  {
  }

  /** An answer without any indicator leaves CONFIRM in place and asks again. */
  lemma UnclearAnswerStays(input: string)
    requires var answer := Strip(Lower(input));
      !ContainsAny(answer, PositiveIndicators) && !ContainsAny(answer, NegativeIndicators)
    ensures Decide(ConfirmState, input) == Turn(None, ClarifyReply)
  {
  }

  /** An answer that is not confirmed but holds a negative indicator goes back
      to START. */
  lemma NegativeAnswerRestarts(input: string)
    requires var answer := Strip(Lower(input));
      ContainsAny(answer, NegativeIndicators) && ConfirmVerdictAsWritten(answer) != Confirmed
    ensures Decide(ConfirmState, input) == Turn(Some(StartState), RetryReply)
  {
  }

  /** An answer containing "not correct" or "not right" is vetoed by "not"
      and rejected ... */
  lemma NotCorrectRejected(answer: string, phrase: string)
    requires phrase == "not correct" || phrase == "not right"
    requires Contains(answer, phrase)
    ensures ConfirmVerdictAsWritten(answer) == Rejected
  {
    assert Contains(phrase, "not") by { assert "not" <= phrase; }
    ContainsTrans(answer, phrase, "not");
    assert Contains(answer, NegationWords[0]);
    assert Contains(answer, NegativeIndicators[if phrase == "not correct" then 5 else 6]);
  }

  /** ... so it sends the conversation from CONFIRM back to START, never to
      IDENTIFIED. */
  lemma NotCorrectRestarts(input: string, phrase: string)
    requires phrase == "not correct" || phrase == "not right"
    requires Contains(Strip(Lower(input)), phrase)
    ensures Decide(ConfirmState, input) == Turn(Some(StartState), RetryReply)
  {
    NotCorrectRejected(Strip(Lower(input)), phrase);
  }

  /** In IDENTIFIED the machine ends exactly on a farewell cue (in any case);
      otherwise it stays and offers more help. */
  lemma IdentifiedTurn(input: string)
    ensures Decide(IdentifiedState, input).next == Some(EndState) <==> ContainsAny(Lower(input), FarewellCues)
    ensures !ContainsAny(Lower(input), FarewellCues) ==> Decide(IdentifiedState, input) == Turn(None, AnythingElseReply)
  {
  }

  /** Any state other than START, CONFIRM and IDENTIFIED, END included, says
      goodbye and changes nothing. */
  lemma OtherStatesSayGoodbye(state: string, input: string)
    requires state != StartState && state != ConfirmState && state != IdentifiedState
    ensures Decide(state, input) == Turn(None, GoodbyeReply)
  {
  }

  /** Once END is reached, no input leaves it. */
  lemma {:induction false} EndAbsorbs(inputs: seq<string>)
    ensures Run(EndState, inputs) == EndState
    decreases |inputs|
  {
    if inputs != [] {
      OtherStatesSayGoodbye(EndState, inputs[0]);
      EndAbsorbs(inputs[1..]);
    }
  }

  /** A run that reaches END from another state passes through IDENTIFIED:
      END is entered from nowhere else. */
  lemma {:induction false} EndOnlyThroughIdentified(state: string, inputs: seq<string>)
    requires state != EndState && Run(state, inputs) == EndState
    ensures exists k :: 0 <= k < |inputs| && Run(state, inputs[..k]) == IdentifiedState
    decreases |inputs|
  {
    assert inputs != [];
    var t := Decide(state, inputs[0]);
    var next := After(state, t);
    assert inputs[..0] == [];
    if next == EndState {
      assert Edge(state, EndState);
      assert Run(state, inputs[..0]) == IdentifiedState;
    } else {
      EndOnlyThroughIdentified(next, inputs[1..]);
      var k :| 0 <= k < |inputs[1..]| && Run(next, inputs[1..][..k]) == IdentifiedState;
      assert inputs[..k + 1][0] == inputs[0] && inputs[..k + 1][1..] == inputs[1..][..k];
      assert Run(state, inputs[..k + 1]) == IdentifiedState;
    }
  }

  /** The happy path: a name, a "yes" and a "bye" take a new machine to END. */
  lemma HappyPath(name: string)
    requires ProvidesName(name)
    ensures Run(StartState, [name, "yes", "bye"]) == EndState
  {
    var inputs := [name, "yes", "bye"];
    StartTurn(name);
    YesConfirms();
    ByeEnds();
    assert inputs[1..] == ["yes", "bye"] && ["yes", "bye"][1..] == ["bye"] && ["bye"][1..] == [];
    assert Run(IdentifiedState, ["bye"]) == Run(EndState, []);
    assert Run(ConfirmState, ["yes", "bye"]) == Run(IdentifiedState, ["bye"]);
    assert Run(StartState, inputs) == Run(ConfirmState, ["yes", "bye"]);
  }

  /** The CONFIRM turn of a word that is its own lowered, stripped answer. */
  lemma ConfirmTurnOfAnswer(input: string)
    requires input != [] && Lower(input) == input && !IsSpace(input[0]) && !IsSpace(input[|input| - 1])
    ensures Decide(ConfirmState, input) == match ConfirmVerdictAsWritten(input)
      case Confirmed => Turn(Some(IdentifiedState), ConfirmedReply)
      case Rejected => Turn(Some(StartState), RetryReply)
      case Unclear => Turn(None, ClarifyReply)
  {
    StripUnpadded(input);
  }

  /** "yes" confirms. */
  lemma YesConfirms()
    ensures Decide(ConfirmState, "yes") == Turn(Some(IdentifiedState), ConfirmedReply)
  {
    var answer := "yes";
    assert Lower(answer) == answer;
    ConfirmTurnOfAnswer(answer);
    YesConfirmed();
  }

  lemma YesConfirmed()
    ensures ConfirmVerdictAsWritten("yes") == Confirmed
  {
    var answer := "yes";
    assert Contains(answer, PositiveIndicators[0]);
    forall k | 0 <= k < |NegationWords|
      ensures !Contains(answer, NegationWords[k])
    {
      var w := NegationWords[k];
      // Each veto word has a letter that "yes" lacks.
      var j := if k == 0 || k == 1 || k == 4 then 1 else 0;
      assert w[j] !in answer;
      if Contains(answer, w) {
        ContainsChar(answer, w, j);
      }
    }
    assert ConfirmVerdictAsWritten(answer) == Confirmed;
  }

  /** "no" goes back to START. */
  lemma NoRestarts()
    ensures Decide(ConfirmState, "no") == Turn(Some(StartState), RetryReply)
  {
    var answer := "no";
    assert Lower(answer) == answer;
    ConfirmTurnOfAnswer(answer);
    NoRejected();
  }

  lemma NoRejected()
    ensures ConfirmVerdictAsWritten("no") == Rejected
  {
    var answer := "no";
    assert Contains(answer, NegationWords[1]);
    assert Contains(answer, NegativeIndicators[0]);
  }

  /** "bye" ends an identified conversation. */
  lemma ByeEnds()
    ensures Decide(IdentifiedState, "bye") == Turn(Some(EndState), FarewellReply)
  {
    assert Lower("bye") == "bye";
    assert Contains("bye", FarewellCues[0]);
  }

  // ---------------------------------------------------------------------------
  // The quit/exit check
  // ---------------------------------------------------------------------------

  /** Only the four letters quit or exit, in any mix of case, end the
      conversation: no padding, no further words. */
  lemma QuitCommandShape(input: string)
    ensures IsQuitCommand(input) ==> |input| == 4 && IsAlphaWord(input)
    ensures IsQuitCommand(input) <==> IsQuitCommand(Lower(input))
  {
    if IsQuitCommand(input) {
      forall i | 0 <= i < 4 ensures IsAlpha(input[i]) {
        assert IsAlpha(LowerChar(input[i]));
      }
    }
    assert Lower(Lower(input)) == Lower(input);
  }

  /** "QUIT" is a quit command. */
  lemma UpperQuitIsQuit()
    ensures IsQuitCommand("QUIT")
  {
    assert Lower("QUIT") == "quit";
  }

  // ---------------------------------------------------------------------------
  // The "incorrect" answer
  // ---------------------------------------------------------------------------

  /** As the demo writes it, the answer "incorrect" is confirmed: it contains
      the positive indicator "correct" and none of the veto words ... */
  lemma IncorrectConfirmedAsWritten()
    ensures ConfirmVerdictAsWritten("incorrect") == Confirmed
  {
    var answer := "incorrect";
    assert Contains(answer, PositiveIndicators[2]) by {
      assert "correct" <= answer[2..];
    }
    forall k | 0 <= k < |NegationWords|
      ensures !Contains(answer, NegationWords[k])
    {
      var w := NegationWords[k];
      if k <= 1 {
        // "n" is followed by "c", never by "o".
        if Contains(answer, w) {
          ContainsPair(answer, w);
        }
      } else {
        // "isn't", "aren't" and "don't" have a letter that "incorrect" lacks.
        var j := if k == 2 then 1 else 0;
        assert w[j] !in answer;
        if Contains(answer, w) {
          ContainsChar(answer, w, j);
        }
      }
    }
  }

  /** ... so the demo's machine moves from CONFIRM to IDENTIFIED on it. */
  lemma IncorrectIdentifiedAsWritten()
    ensures Decide(ConfirmState, "incorrect") == Turn(Some(IdentifiedState), ConfirmedReply)
  {
    var input := "incorrect";
    assert Lower(input) == input;
    ConfirmTurnOfAnswer(input);
    IncorrectConfirmedAsWritten();
  }

  /** With the corrected veto list, an answer containing "incorrect" is
      rejected ... */
  lemma IncorrectRejected(answer: string)
    requires Contains(answer, "incorrect")
    ensures ConfirmVerdict(answer) == Rejected
  {
    assert Contains(answer, CorrectedNegationWords[5]);
    assert Contains(answer, NegativeIndicators[2]);
  }

  /** The correction touches nothing else: on an answer without "incorrect"
      the corrected machine takes the same turn as the demo's. */
  lemma CorrectionOnlyConcernsIncorrect(state: string, input: string)
    requires !Contains(Strip(Lower(input)), "incorrect")
    ensures DecideCorrected(state, input) == Decide(state, input)
  {
    CorrectedVerdictAgrees(Strip(Lower(input)));
  }

  /** Without "incorrect", the two veto lists give the same verdict. */
  lemma CorrectedVerdictAgrees(answer: string)
    requires !Contains(answer, "incorrect")
    ensures ReadAnswer(answer, CorrectedNegationWords) == ReadAnswer(answer, NegationWords)
  {
    if ContainsAny(answer, CorrectedNegationWords) {
      var k :| 0 <= k < |CorrectedNegationWords| && Contains(answer, CorrectedNegationWords[k]);
      assert k < |NegationWords| && CorrectedNegationWords[k] == NegationWords[k];
    }
    if ContainsAny(answer, NegationWords) {
      var k :| 0 <= k < |NegationWords| && Contains(answer, NegationWords[k]);
      assert CorrectedNegationWords[k] == NegationWords[k];
    }
  }

  /** ... and so sends the conversation from CONFIRM back to START. */
  lemma IncorrectRestarts(input: string)
    requires Contains(Strip(Lower(input)), "incorrect")
    ensures DecideCorrected(ConfirmState, input) == Turn(Some(StartState), RetryReply)
  {
    IncorrectRejected(Strip(Lower(input)));
  }
}
