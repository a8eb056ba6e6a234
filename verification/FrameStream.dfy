// One pooled camera stream (internal/web/camera_stream_pool.go): the latest
// frame, the last error and the stop flag, published to waiting readers by
// closing the current notification channel and putting a new one in its place.
// Each step below is one section under the stream's lock.
module FrameStream {
  import opened Prelude

  const MAX_FRAME := 16 * 1024 * 1024
  const SEQUENCE_MODULUS := 0x1_0000_0000_0000_0000

  datatype Frame = Frame(data: seq<Byte>, width: nat, height: nat, sequence: nat, source: string, updatedAt: int)

  datatype StreamError =
    | EmptyFrame | FrameTooLarge | Undecodable | Unencodable | Canceled | NoFrameYet | TimedOut
    | CaptureFailed(text: string)

  // What the image library makes of a frame's bytes; other formats than JPEG are
  // encoded anew.
  datatype Decoding = Unreadable | Jpeg(width: nat, height: nat) | Reencoded(data: seq<Byte>, width: nat, height: nat)
                    | EncodingFails

  // Channels are numbered in the order they are made; `closes` counts how often
  // each has been closed and `cancels` how often the capture has been cancelled.
  datatype State = State(
    frame: Frame, lastErr: Option<StreamError>, stopped: bool, notify: nat, closes: seq<nat>, cancels: nat)

  datatype Event =
    | Publish(data: seq<Byte>, source: string, decoding: Decoding, now: int)
    | Fail(error: Option<StreamError>)
    | Stop

  function Initial(): State {
    State(Frame([], 0, 0, 0, "", 0), None, false, 0, [0], 0)
  }

  // ---- Steps ----

  function Signal(s: State): State
    requires s.notify < |s.closes|
  {
    s.(closes := s.closes[s.notify := s.closes[s.notify] + 1] + [0], notify := |s.closes|)
  }

  // The readers waiting on the channel are woken, and a new channel is open.
  ghost predicate Renewed(before: State, after: State) {
    && before.notify < |before.closes| < |after.closes| && after.notify < |after.closes|
    && after.notify != before.notify && after.closes[before.notify] == before.closes[before.notify] + 1
    && after.closes[after.notify] == 0
  }

  // The frame an event publishes, or the error its publisher gets.
  function Published(s: State, data: seq<Byte>, source: string, decoding: Decoding, now: int): Result<Frame,
                     StreamError> {
    if |data| == 0 then Err(EmptyFrame)
    else if |data| > MAX_FRAME then Err(FrameTooLarge)
    else if decoding.Unreadable? then Err(Undecodable)
    else if decoding.EncodingFails? then Err(Unencodable)
    else if s.stopped then Err(Canceled)
    else Ok(Frame(if decoding.Reencoded? then decoding.data else data, decoding.width, decoding.height,
                  (s.frame.sequence + 1) % SEQUENCE_MODULUS, source, now))
  }

  // An event that changes what a reader can see.
  predicate Effective(s: State, e: Event) {
    match e
    case Publish(data, source, decoding, now) => Published(s, data, source, decoding, now).Ok?
    case Fail(error) => error.Some?
    case Stop => !s.stopped
  }

  function Step(s: State, e: Event): (s': State)
    requires s.notify < |s.closes|
    ensures s'.notify < |s'.closes|
  {
    if !Effective(s, e) then s
    else
      match e
      case Publish(data, source, decoding, now) =>
        Signal(s.(frame := Published(s, data, source, decoding, now).value, lastErr := None))
      case Fail(error) => Signal(s.(lastErr := error))
      case Stop => Signal(s.(stopped := true, cancels := s.cancels + 1))
  }

  function Run(s: State, es: seq<Event>): (s': State)
    requires s.notify < |s.closes|
    ensures s'.notify < |s'.closes|
  {
    if es == [] then s else Step(Run(s, es[..|es| - 1]), es[|es| - 1])
  }

  // ---- The channels ----

  // The current channel is open and every superseded one was closed once; the
  // capture was cancelled once if the stream is stopped.
  ghost predicate ChannelsValid(s: State) {
    && s.notify < |s.closes|
    && (forall c :: 0 <= c < |s.closes| ==> s.closes[c] == if c == s.notify then 0 else 1)
  }

  ghost predicate Valid(s: State) {
    && ChannelsValid(s)
    && s.cancels == (if s.stopped then 1 else 0)
    && s.frame.sequence < SEQUENCE_MODULUS
  }

  lemma {:induction false} RunKeepsValid(s: State, es: seq<Event>)
    requires Valid(s)
    ensures Valid(Run(s, es))
  {
    if es != [] {
      RunKeepsValid(s, es[..|es| - 1]);
    }
  }

  // A run in which no event is effective.
  predicate Quiet(s: State, es: seq<Event>)
    requires s.notify < |s.closes|
  {
    es == [] || (Quiet(s, es[..|es| - 1]) && !Effective(Run(s, es[..|es| - 1]), es[|es| - 1]))
  }

  // No wake-up is lost and none is spurious: the channel a reader took is still
  // open exactly if nothing effective has happened since, and then the whole
  // state is the one the reader saw.
  lemma {:induction false} HeldChannel(s: State, es: seq<Event>)
    requires Valid(s)
    ensures var t := Run(s, es);
            && s.notify < |t.closes| && |s.closes| <= |t.closes|
            && (t.closes[s.notify] == 0 <==> Quiet(s, es))
            && (Quiet(s, es) ==> t == s)
            && (!Quiet(s, es) ==> t.notify != s.notify)
  {
    if es != [] {
      HeldChannel(s, es[..|es| - 1]);
      RunKeepsValid(s, es[..|es| - 1]);
    }
  }

  // ---- Sequence numbers ----

  function Accepted(s: State, es: seq<Event>): nat
    requires s.notify < |s.closes|
  {
    if es == [] then 0
    else
      var before, last := Run(s, es[..|es| - 1]), es[|es| - 1];
      Accepted(s, es[..|es| - 1]) + if last.Publish? && Effective(before, last) then 1 else 0
  }

  // One more for every accepted frame, in 64 bits; after a stop, the frame stays
  // for good.
  lemma {:induction false} SequenceCounts(s: State, es: seq<Event>)
    requires Valid(s)
    ensures Run(s, es).frame.sequence == (s.frame.sequence + Accepted(s, es)) % SEQUENCE_MODULUS
    ensures s.stopped ==> Run(s, es).stopped && Run(s, es).frame == s.frame && Accepted(s, es) == 0
  {
    if es != [] {
      SequenceCounts(s, es[..|es| - 1]);
      NextModulo(s.frame.sequence + Accepted(s, es[..|es| - 1]));
    }
  }

  lemma NextModulo(n: nat)
    ensures (n % SEQUENCE_MODULUS + 1) % SEQUENCE_MODULUS == (n + 1) % SEQUENCE_MODULUS
  {
    var q, r := n / SEQUENCE_MODULUS, n % SEQUENCE_MODULUS;
    assert n + 1 == q * SEQUENCE_MODULUS + (r + 1);
  }

  // ---- Waiting ----

  // What the waiter's select statement does once the events of a turn are over:
  // take the timer, take the cancelled context, or else go on, which it does as
  // soon as its channel is closed.
  datatype Choice = Continue | Timer | Cancelled(error: StreamError)

  datatype Turn = Turn(events: seq<Event>, choice: Choice, now: int)

  datatype Outcome = Got(frame: Frame) | Failed(error: StreamError) | StillWaiting

  // What a reader asking for a frame after `after` makes of a state.
  function CheckNext(s: State, after: nat): Outcome {
    if s.stopped then Failed(Canceled)
    else if s.frame.sequence > after && |s.frame.data| > 0 then Got(s.frame)
    else StillWaiting
  }

  function TimeoutOf(s: State): StreamError {
    if s.lastErr.Some? then s.lastErr.value else TimedOut
  }

  // The reference: look at the state after every single turn.
  function PollNext(s: State, after: nat, turns: seq<Turn>): Outcome
    requires s.notify < |s.closes|
    decreases |turns|
  {
    if !CheckNext(s, after).StillWaiting? || turns == [] then CheckNext(s, after)
    else
      match turns[0].choice
      case Timer => Failed(TimeoutOf(s))
      case Cancelled(error) => Failed(error)
      case Continue => PollNext(Run(s, turns[0].events), after, turns[1..])
  }

  // A reader that asks for any frame not older than maxAge; a stream in error
  // fails it at once.
  predicate FreshFrame(s: State, maxAge: int, now: int) {
    s.frame.sequence > 0 && |s.frame.data| > 0 && (maxAge <= 0 || now - s.frame.updatedAt <= maxAge)
  }

  function CheckCurrent(s: State, maxAge: int, now: int): Outcome {
    if s.stopped then Failed(Canceled)
    else if FreshFrame(s, maxAge, now) then Got(s.frame)
    else if s.lastErr.Some? then Failed(s.lastErr.value)
    else StillWaiting
  }

  function PollCurrent(s: State, maxAge: int, now: int, turns: seq<Turn>): Outcome
    requires s.notify < |s.closes|
    decreases |turns|
  {
    if !CheckCurrent(s, maxAge, now).StillWaiting? || turns == [] then CheckCurrent(s, maxAge, now)
    else
      match turns[0].choice
      case Timer => Failed(TimedOut)
      case Cancelled(error) => Failed(error)
      case Continue => PollCurrent(Run(s, turns[0].events), maxAge, turns[0].now, turns[1..])
  }

  predicate ClockRuns(now: int, turns: seq<Turn>)
    decreases |turns|
  {
    turns == [] || (now <= turns[0].now && ClockRuns(turns[0].now, turns[1..]))
  }

  function AllEvents(turns: seq<Turn>): seq<Event>
    decreases |turns|
  {
    if turns == [] then [] else turns[0].events + AllEvents(turns[1..])
  }

  lemma {:induction false} RunSplits(s: State, xs: seq<Event>, ys: seq<Event>)
    requires s.notify < |s.closes|
    ensures Run(s, xs + ys) == Run(Run(s, xs), ys)
  {
    if ys == [] {
      assert xs + ys == xs;
    } else {
      RunSplits(s, xs, ys[..|ys| - 1]);
      assert (xs + ys)[..|xs + ys| - 1] == xs + ys[..|ys| - 1];
    }
  }

  // ---- What a waiting reader gets ----

  // The state when the first k turns are over.
  function StateAt(s: State, turns: seq<Turn>, k: nat): (t: State)
    requires s.notify < |s.closes| && k <= |turns|
    ensures t.notify < |t.closes|
  {
    Run(s, AllEvents(turns[..k]))
  }

  lemma {:induction false} StateAtNext(s: State, turns: seq<Turn>, k: nat)
    requires s.notify < |s.closes| && 0 < k <= |turns|
    ensures StateAt(s, turns, k) == StateAt(Run(s, turns[0].events), turns[1..], k - 1)
  {
    assert turns[..k][0] == turns[0] && turns[..k][1..] == turns[1..][..k - 1];
    RunSplits(s, turns[0].events, AllEvents(turns[1..][..k - 1]));
  }

  lemma StateAtStart(s: State, turns: seq<Turn>)
    requires s.notify < |s.closes|
    ensures StateAt(s, turns, 0) == s
  {
    assert turns[..0] == [];
  }

  // A state in which a reader after `after` can only wait.
  predicate NothingNext(s: State, after: nat) {
    !s.stopped && (s.frame.sequence <= after || s.frame.data == [])
  }

  // The outcome when the reader has waited through k turns: nothing came in any of
  // the states before, and the k-th turn's choice or state ends the wait.
  ghost predicate NextAnswer(s: State, after: nat, turns: seq<Turn>, k: nat, o: Outcome)
    requires s.notify < |s.closes|
  {
    && k <= |turns|
    && (forall j :: 0 <= j < k ==> turns[j].choice == Continue && NothingNext(StateAt(s, turns, j), after))
    && var t := StateAt(s, turns, k);
       if t.stopped then o == Failed(Canceled)
       else if t.frame.sequence > after && t.frame.data != [] then o == Got(t.frame)
       else if k == |turns| then o == StillWaiting
       else match turns[k].choice
            case Continue => false
            case Timer => o == Failed(if t.lastErr.Some? then t.lastErr.value else TimedOut)
            case Cancelled(error) => o == Failed(error)
  }

  ghost predicate AnsweredNext(s: State, after: nat, turns: seq<Turn>, o: Outcome)
    requires s.notify < |s.closes|
  {
    exists k: nat :: NextAnswer(s, after, turns, k, o)
  }

  lemma {:induction false} NextAnswerLater(s: State, after: nat, turns: seq<Turn>, k: nat, o: Outcome)
    requires s.notify < |s.closes| && turns != [] && turns[0].choice == Continue && NothingNext(s, after)
    requires NextAnswer(Run(s, turns[0].events), after, turns[1..], k, o)
    ensures NextAnswer(s, after, turns, k + 1, o)
  {
    StateAtStart(s, turns);
    StateAtNext(s, turns, k + 1);
    forall j | 0 < j < k + 1
      ensures turns[j].choice == Continue && NothingNext(StateAt(s, turns, j), after)
    {
      StateAtNext(s, turns, j);
      assert turns[1..][j - 1].choice == Continue;
    }
  }

  // A reader gets the first frame newer than asked for and not empty, unless the
  // stream stops, the timer runs out or the context is cancelled before.
  lemma {:induction false} NextAnswered(s: State, after: nat, turns: seq<Turn>)
    requires s.notify < |s.closes|
    ensures AnsweredNext(s, after, turns, PollNext(s, after, turns))
    decreases |turns|
  {
    StateAtStart(s, turns);
    if NothingNext(s, after) && turns != [] && turns[0].choice == Continue {
      var t := Run(s, turns[0].events);
      NextAnswered(t, after, turns[1..]);
      var k: nat :| NextAnswer(t, after, turns[1..], k, PollNext(t, after, turns[1..]));
      NextAnswerLater(s, after, turns, k, PollNext(t, after, turns[1..]));
    } else {
      assert NextAnswer(s, after, turns, 0, PollNext(s, after, turns));
    }
  }

  // The time of the reader's look at the state when the first k turns are over.
  function TimeAt(now: int, turns: seq<Turn>, k: nat): int
    requires k <= |turns|
  {
    if k == 0 then now else turns[k - 1].now
  }

  predicate NothingCurrent(s: State, maxAge: int, now: int) {
    && !s.stopped && s.lastErr == None
    && (s.frame.sequence == 0 || s.frame.data == [] || (maxAge > 0 && now - s.frame.updatedAt > maxAge))
  }

  // The j-th turn only passes: nothing has come, and the reader waits on.
  ghost predicate Passes(s: State, maxAge: int, now: int, turns: seq<Turn>, j: nat)
    requires s.notify < |s.closes| && j < |turns|
  {
    turns[j].choice == Continue && NothingCurrent(StateAt(s, turns, j), maxAge, TimeAt(now, turns, j))
  }

  // The outcome in a state at a time: a stop or an error of the stream, or a frame
  // that is not too old; otherwise as the turn that follows ends the wait, if one does.
  predicate EndsCurrent(t: State, maxAge: int, now: int, choice: Option<Choice>, o: Outcome) {
    if t.stopped then o == Failed(Canceled)
    else if t.frame.sequence > 0 && t.frame.data != [] && (maxAge > 0 ==> now - t.frame.updatedAt <= maxAge)
      then o == Got(t.frame)
    else if t.lastErr.Some? then o == Failed(t.lastErr.value)
    else match choice
         case None => o == StillWaiting
         case Some(Continue) => false
         case Some(Timer) => o == Failed(TimedOut)
         case Some(Cancelled(error)) => o == Failed(error)
  }

  function ChoiceAt(turns: seq<Turn>, k: nat): Option<Choice> {
    if k < |turns| then Some(turns[k].choice) else None
  }

  ghost predicate CurrentAnswer(s: State, maxAge: int, now: int, turns: seq<Turn>, k: nat, o: Outcome)
    requires s.notify < |s.closes|
  {
    && k <= |turns| && (forall j: nat :: j < k ==> Passes(s, maxAge, now, turns, j))
    && EndsCurrent(StateAt(s, turns, k), maxAge, TimeAt(now, turns, k), ChoiceAt(turns, k), o)
  }

  ghost predicate AnsweredCurrent(s: State, maxAge: int, now: int, turns: seq<Turn>, o: Outcome)
    requires s.notify < |s.closes|
  {
    exists k: nat :: CurrentAnswer(s, maxAge, now, turns, k, o)
  }

  lemma PassesLater(s: State, maxAge: int, now: int, turns: seq<Turn>, j: nat)
    requires s.notify < |s.closes| && j + 1 < |turns|
    requires Passes(Run(s, turns[0].events), maxAge, turns[0].now, turns[1..], j)
    ensures Passes(s, maxAge, now, turns, j + 1)
  {
    StateAtNext(s, turns, j + 1);
    TimeNext(now, turns, j + 1);
    assert turns[1..][j].choice == Continue;
  }

  lemma TimeNext(now: int, turns: seq<Turn>, k: nat)
    requires 0 < k <= |turns|
    ensures TimeAt(now, turns, k) == TimeAt(turns[0].now, turns[1..], k - 1)
  {
  }

  lemma CurrentAnswerLater(s: State, maxAge: int, now: int, turns: seq<Turn>, k: nat, o: Outcome)
    requires s.notify < |s.closes| && turns != [] && turns[0].choice == Continue && NothingCurrent(s, maxAge, now)
    requires CurrentAnswer(Run(s, turns[0].events), maxAge, turns[0].now, turns[1..], k, o)
    ensures CurrentAnswer(s, maxAge, now, turns, k + 1, o)
  {
    StateAtStart(s, turns);
    StateAtNext(s, turns, k + 1);
    TimeNext(now, turns, k + 1);
    assert ChoiceAt(turns, k + 1) == ChoiceAt(turns[1..], k);
    forall j: nat | j < k + 1
      ensures Passes(s, maxAge, now, turns, j)
    {
      if j > 0 {
        PassesLater(s, maxAge, now, turns, j - 1);
      }
    }
  }

  // A reader that asks for a frame of bounded age gets the first such frame, unless
  // the stream stops or fails, the timer runs out or the context is cancelled before.
  lemma {:induction false} CurrentAnswered(s: State, maxAge: int, now: int, turns: seq<Turn>)
    requires s.notify < |s.closes|
    ensures AnsweredCurrent(s, maxAge, now, turns, PollCurrent(s, maxAge, now, turns))
    decreases |turns|
  {
    StateAtStart(s, turns);
    if NothingCurrent(s, maxAge, now) && turns != [] && turns[0].choice == Continue {
      var t := Run(s, turns[0].events);
      CurrentAnswered(t, maxAge, turns[0].now, turns[1..]);
      var k: nat :| CurrentAnswer(t, maxAge, turns[0].now, turns[1..], k,
                                  PollCurrent(t, maxAge, turns[0].now, turns[1..]));
      CurrentAnswerLater(s, maxAge, now, turns, k, PollCurrent(t, maxAge, turns[0].now, turns[1..]));
      assert PollCurrent(s, maxAge, now, turns) == PollCurrent(t, maxAge, turns[0].now, turns[1..]);
    } else {
      assert CurrentAnswer(s, maxAge, now, turns, 0, PollCurrent(s, maxAge, now, turns));
    }
  }

  // A frame that is returned is newer than asked for and not empty; a reader that
  // waits through a whole run without timer or cancellation has missed nothing.
  lemma {:induction false} PollNextReturns(s: State, after: nat, turns: seq<Turn>)
    requires s.notify < |s.closes|
    ensures var o := PollNext(s, after, turns);
            && (o.Got? ==> o.frame.sequence > after && |o.frame.data| > 0)
            && (o.StillWaiting? ==> NothingNext(Run(s, AllEvents(turns)), after))
    decreases |turns|
  {
    if CheckNext(s, after).StillWaiting? && turns != [] && turns[0].choice.Continue? {
      PollNextReturns(Run(s, turns[0].events), after, turns[1..]);
      RunSplits(s, turns[0].events, AllEvents(turns[1..]));
    }
  }

  // ---- Waiting on a channel ----

  // What ends a select statement, what remains of the turns, the time and the
  // events that happened meanwhile.
  datatype Wake = Wake(choice: Option<Choice>, rest: seq<Turn>, now: int, happened: seq<Event>)

  lemma AppendAssociates<T>(a: seq<T>, b: seq<T>, c: seq<T>)
    ensures a + (b + c) == (a + b) + c
  {
  }

  // A select statement on the channel `s.notify`: Continue turns go by until one
  // of them closes it.
  function Blocked(s: State, now: int, turns: seq<Turn>): (w: Wake)
    requires s.notify < |s.closes|
    ensures |w.rest| <= |turns|
    ensures w.choice.Some? ==> |w.rest| < |turns|
    ensures w.happened + AllEvents(w.rest) == AllEvents(turns)
    decreases |turns|
  {
    if turns == [] then Wake(None, [], now, [])
    else
      var turn, after := turns[0], Run(s, turns[0].events);
      if turn.choice.Continue? && after.notify == s.notify then
        var w := Blocked(after, turn.now, turns[1..]);
        AppendAssociates(turn.events, w.happened, AllEvents(w.rest));
        w.(happened := turn.events + w.happened)
      else Wake(Some(turn.choice), turns[1..], turn.now, turn.events)
  }

  // A reader that only looks again when its channel is closed gets what the
  // polling reader gets.
  lemma {:induction false} BlockingMissesNothing(s: State, after: nat, now: int, turns: seq<Turn>)
    requires Valid(s) && CheckNext(s, after).StillWaiting?
    ensures var w := Blocked(s, now, turns);
            PollNext(s, after, turns) ==
              match w.choice
              case None => StillWaiting
              case Some(Timer) => Failed(TimeoutOf(s))
              case Some(Cancelled(error)) => Failed(error)
              case Some(Continue) => PollNext(Run(s, w.happened), after, w.rest)
    decreases |turns|
  {
    if turns != [] && turns[0].choice.Continue? {
      HeldChannel(s, turns[0].events);
      if Run(s, turns[0].events).notify == s.notify {
        BlockingMissesNothing(s, after, turns[0].now, turns[1..]);
        RunSplits(s, turns[0].events, Blocked(s, turns[0].now, turns[1..]).happened);
      }
    }
  }

  // The same for a bounded age: with a clock that does not run backwards, a frame
  // that is too old stays too old.
  lemma {:induction false} BlockingMissesNothingCurrent(s: State, maxAge: int, now: int, turns: seq<Turn>)
    requires Valid(s) && CheckCurrent(s, maxAge, now).StillWaiting? && ClockRuns(now, turns)
    ensures var w := Blocked(s, now, turns);
            && ClockRuns(w.now, w.rest)
            && PollCurrent(s, maxAge, now, turns) ==
                 match w.choice
                 case None => StillWaiting
                 case Some(Timer) => Failed(TimedOut)
                 case Some(Cancelled(error)) => Failed(error)
                 case Some(Continue) => PollCurrent(Run(s, w.happened), maxAge, w.now, w.rest)
    decreases |turns|
  {
    if turns != [] && turns[0].choice.Continue? {
      HeldChannel(s, turns[0].events);
      if Run(s, turns[0].events).notify == s.notify {
        BlockingMissesNothingCurrent(s, maxAge, turns[0].now, turns[1..]);
        RunSplits(s, turns[0].events, Blocked(s, turns[0].now, turns[1..]).happened);
      }
    }
  }

  // The state is the one after the events of all turns but the rest.
  ghost predicate Reached(s: State, turns: seq<Turn>, t: State, rest: seq<Turn>)
    requires s.notify < |s.closes|
  {
    exists happened :: happened + AllEvents(rest) == AllEvents(turns) && t == Run(s, happened)
  }

  lemma ReachedStart(s: State, turns: seq<Turn>)
    requires s.notify < |s.closes|
    ensures Reached(s, turns, s, turns)
  {
    assert [] + AllEvents(turns) == AllEvents(turns) && s == Run(s, []);
  }

  lemma ReachedStep(s: State, turns: seq<Turn>, t: State, now: int, rest: seq<Turn>)
    requires s.notify < |s.closes| && t.notify < |t.closes| && Reached(s, turns, t, rest)
    ensures var w := Blocked(t, now, rest); Reached(s, turns, Run(t, w.happened), w.rest)
  {
    var happened :| happened + AllEvents(rest) == AllEvents(turns) && t == Run(s, happened);
    var w := Blocked(t, now, rest);
    RunSplits(s, happened, w.happened);
    AppendAssociates(happened, w.happened, AllEvents(w.rest));
  }

  class NetworkCameraStream {
    var frame: Frame
    var lastErr: Option<StreamError>
    var stopped: bool
    var notify: nat
    var closes: seq<nat>
    var cancels: nat

    function Now(): State
      reads this
    {
      State(frame, lastErr, stopped, notify, closes, cancels)
    }

    constructor ()
      ensures Now() == Initial() && Valid(Now())
    {
      frame, lastErr, stopped := Frame([], 0, 0, 0, "", 0), None, false;
      notify, closes, cancels := 0, [0], 0;
    }

    // Closing a closed channel panics, so callers must know it is open.
    method Close(channel: nat)
      requires channel < |closes| && closes[channel] == 0
      modifies this`closes
      ensures closes == old(closes)[channel := 1]
    {
      closes := closes[channel := closes[channel] + 1];
    }

    method Renew()
      requires ChannelsValid(Now())
      modifies this`notify, this`closes
      ensures Now() == Signal(old(Now()))
    {
      var previous := notify;
      closes := closes + [0];
      notify := |closes| - 1;
      Close(previous);
    }

    method PublishFrame(data: seq<Byte>, source: string, decoding: Decoding, now: int) returns (r: Option<StreamError>)
      requires Valid(Now())
      modifies this
      ensures Valid(Now()) && Now() == Step(old(Now()), Publish(data, source, decoding, now))
      ensures var p := Published(old(Now()), data, source, decoding, now);
              r == if p.Ok? then None else Some(p.error)
      ensures r.None? <==> 0 < |data| <= 16 * 1024 * 1024 && (decoding.Jpeg? || decoding.Reencoded?) && !old(stopped)
      ensures r.None? ==>
                && frame.data == (if decoding.Reencoded? then decoding.data else data)
                && frame.width == decoding.width && frame.height == decoding.height
                && frame.sequence == (old(frame).sequence + 1) % SEQUENCE_MODULUS
                && frame.source == source && frame.updatedAt == now
                && lastErr == None && !stopped && Renewed(old(Now()), Now())
      ensures r.Some? ==> Now() == old(Now())
    {
      if |data| == 0 {
        return Some(EmptyFrame);
      }
      if |data| > MAX_FRAME {
        return Some(FrameTooLarge);
      }
      var bytes, width, height := data, 0, 0;
      match decoding {
        case Unreadable => return Some(Undecodable);
        case EncodingFails => return Some(Unencodable);
        case Jpeg(w, h) => width, height := w, h;
        case Reencoded(jpeg, w, h) => bytes, width, height := jpeg, w, h;
      }
      if stopped {
        return Some(Canceled);
      }
      frame := Frame(bytes, width, height, (frame.sequence + 1) % SEQUENCE_MODULUS, source, now);
      lastErr := None;
      Renew();
      r := None;
    }

    method SetError(error: Option<StreamError>)
      requires Valid(Now())
      modifies this
      ensures Valid(Now()) && Now() == Step(old(Now()), Fail(error))
      ensures error.Some? ==>
                lastErr == error && frame == old(frame) && stopped == old(stopped) && Renewed(old(Now()), Now())
      ensures error.None? ==> Now() == old(Now())
    {
      if error.None? {
        return;
      }
      lastErr := error;
      Renew();
    }

    method StopStream()
      requires Valid(Now())
      modifies this
      ensures Valid(Now()) && Now() == Step(old(Now()), Stop)
      ensures stopped && frame == old(frame) && lastErr == old(lastErr) && cancels == 1
      ensures if old(stopped) then Now() == old(Now()) else Renewed(old(Now()), Now())
    {
      if stopped {
        return;
      }
      stopped := true;
      Renew();
      cancels := cancels + 1;
    }

    method Current(maxAge: int, now: int) returns (found: Option<Frame>)
      ensures found.Some? <==> !stopped && frame.sequence > 0 && frame.data != []
                               && (maxAge > 0 ==> now - frame.updatedAt <= maxAge)
      ensures found.Some? ==> found.value == frame
    {
      if stopped || frame.sequence == 0 || |frame.data| == 0 {
        return None;
      }
      if maxAge > 0 && now - frame.updatedAt > maxAge {
        return None;
      }
      return Some(frame);
    }

    // The other goroutines during a turn.
    method Happen(events: seq<Event>)
      requires Valid(Now())
      modifies this
      ensures Valid(Now()) && Now() == Run(old(Now()), events)
    {
      for i := 0 to |events|
        invariant Valid(Now()) && Now() == Run(old(Now()), events[..i])
      {
        assert events[..i + 1][..i] == events[..i];
        match events[i] {
          case Publish(data, source, decoding, now) => var _ := PublishFrame(data, source, decoding, now);
          case Fail(error) => SetError(error);
          case Stop => StopStream();
        }
      }
      assert events[..|events|] == events;
    }

    // The select statement.
    method Block(held: nat, now: int, turns: seq<Turn>) returns (w: Wake)
      requires Valid(Now()) && held == notify
      modifies this
      ensures Valid(Now()) && w == Blocked(old(Now()), now, turns) && Now() == Run(old(Now()), w.happened)
      decreases |turns|
    {
      if turns == [] {
        return Wake(None, [], now, []);
      }
      var turn := turns[0];
      HeldChannel(Now(), turn.events);
      Happen(turn.events);
      if turn.choice.Continue? && closes[held] == 0 {
        w := Block(held, turn.now, turns[1..]);
        RunSplits(old(Now()), turn.events, w.happened);
        return w.(happened := turn.events + w.happened);
      }
      return Wake(Some(turn.choice), turns[1..], turn.now, turn.events);
    }

    // Waits for a frame after `after`.
    method WaitNext(after: nat, now: int, turns: seq<Turn>) returns (o: Outcome, ghost left: seq<Turn>)
      requires Valid(Now())
      modifies this
      ensures Valid(Now()) && Reached(old(Now()), turns, Now(), left)
      ensures o == PollNext(old(Now()), after, turns)
      ensures AnsweredNext(old(Now()), after, turns, o)
    {
      var rest, time := turns, now;
      ReachedStart(Now(), turns);
      NextAnswered(Now(), after, turns);
      while true
        invariant Valid(Now()) && Reached(old(Now()), turns, Now(), rest)
        invariant PollNext(old(Now()), after, turns) == PollNext(Now(), after, rest)
        decreases |rest|
      {
        if stopped {
          return Failed(Canceled), rest;
        }
        if frame.sequence > after && |frame.data| > 0 {
          return Got(frame), rest;
        }
        var held, err := notify, lastErr;
        BlockingMissesNothing(Now(), after, time, rest);
        ReachedStep(old(Now()), turns, Now(), time, rest);
        var w := Block(held, time, rest);
        if w.choice.None? {
          return StillWaiting, w.rest;
        }
        match w.choice.value {
          case Cancelled(error) => return Failed(error), w.rest;
          case Timer => return Failed(if err.Some? then err.value else TimedOut), w.rest;
          case Continue =>
        }
        rest, time := w.rest, w.now;
      }
    }

    // Waits up to `wait` for a frame not older than maxAge.
    method WaitCurrent(maxAge: int, wait: int, now: int, turns: seq<Turn>) returns (o: Outcome, ghost left: seq<Turn>)
      requires Valid(Now()) && ClockRuns(now, turns)
      modifies this
      ensures Valid(Now()) && Reached(old(Now()), turns, Now(), left)
      ensures wait > 0 ==> o == PollCurrent(old(Now()), maxAge, now, turns)
      ensures wait > 0 ==> AnsweredCurrent(old(Now()), maxAge, now, turns, o)
      ensures wait <= 0 ==>
                && Now() == old(Now())
                && o == if !stopped && frame.sequence > 0 && frame.data != []
                           && (maxAge > 0 ==> now - frame.updatedAt <= maxAge) then Got(frame)
                        else Failed(if lastErr.Some? then lastErr.value else NoFrameYet)
    {
      ReachedStart(Now(), turns);
      CurrentAnswered(Now(), maxAge, now, turns);
      var found := Current(maxAge, now);
      if found.Some? {
        return Got(found.value), turns;
      }
      if wait <= 0 {
        return Failed(if lastErr.Some? then lastErr.value else NoFrameYet), turns;
      }
      o, left := WaitFrame(maxAge, now, turns);
    }

    // The loop, once there is no frame at the start.
    method WaitFrame(maxAge: int, now: int, turns: seq<Turn>) returns (o: Outcome, ghost left: seq<Turn>)
      requires Valid(Now()) && ClockRuns(now, turns)
      modifies this
      ensures Valid(Now()) && Reached(old(Now()), turns, Now(), left)
      ensures o == PollCurrent(old(Now()), maxAge, now, turns)
    {
      ReachedStart(Now(), turns);
      var rest, time := turns, now;
      while true
        invariant Valid(Now()) && Reached(old(Now()), turns, Now(), rest) && ClockRuns(time, rest)
        invariant PollCurrent(old(Now()), maxAge, now, turns) == PollCurrent(Now(), maxAge, time, rest)
        decreases |rest|
      {
        if stopped {
          return Failed(Canceled), rest;
        }
        if frame.sequence > 0 && |frame.data| > 0 && (maxAge <= 0 || time - frame.updatedAt <= maxAge) {
          return Got(frame), rest;
        }
        if lastErr.Some? {
          return Failed(lastErr.value), rest;
        }
        BlockingMissesNothingCurrent(Now(), maxAge, time, rest);
        ReachedStep(old(Now()), turns, Now(), time, rest);
        var w := Block(notify, time, rest);
        if w.choice.None? {
          return StillWaiting, w.rest;
        }
        match w.choice.value {
          case Cancelled(error) => return Failed(error), w.rest;
          case Timer => return Failed(TimedOut), w.rest;
          case Continue =>
        }
        rest, time := w.rest, w.now;
      }
    }
  }
}
