/**
 The unlock protocol of `quantum/vial.c`: start, then poll with the combination held until a counter
 runs out. The code measures with a 16-bit timer; the histories below carry real times.
 */
module Unlock {

  const COUNTER_MAX := 50
  const MIN_GAP := 100

  type Word16 = t: nat | t < 0x1_0000

  /** A position of the key matrix, and which positions are on. */
  type Position = (nat, nat)
  type Matrix = Position -> bool

  datatype Command = Start | Poll(matrix: Matrix) | Lock

  /** A command and the time in milliseconds at which it is handled. */
  datatype Timed = Timed(now: nat, command: Command)

  datatype State = State(unlocked: bool, inProgress: bool, counter: int, timer: Word16)

  const LOCKED := State(false, false, 0, 0)

  function Low16(now: nat): Word16 {
    now % 0x1_0000
  }

  /** `timer_elapsed` */
  function Elapsed(now: Word16, last: Word16): Word16 {
    (now - last) % 0x1_0000
  }

  predicate Holding(combo: seq<Position>, m: Matrix) {
    forall i :: 0 <= i < |combo| ==> m(combo[i])
  }

  function PollResult(s: State, now: Word16, holding: bool): State {
    if !s.inProgress then s
    else if Elapsed(now, s.timer) > MIN_GAP && holding then
      if s.counter - 1 == 0 then State(true, false, 0, now)
      else s.(counter := s.counter - 1, timer := now)
    else s.(counter := COUNTER_MAX)
  }

  function Handle(combo: seq<Position>, s: State, t: Timed): State {
    match t.command
    case Start => s.(inProgress := true, counter := COUNTER_MAX, timer := Low16(t.now))
    case Poll(m) => PollResult(s, Low16(t.now), Holding(combo, m))
    case Lock => s.(unlocked := false)
  }

  function Run(combo: seq<Position>, h: seq<Timed>): State {
    if h == [] then LOCKED else Handle(combo, Run(combo, h[..|h| - 1]), h[|h| - 1])
  }

  /** The statics of the firmware. */
  class Vial {
    const combo: seq<Position>
    var vialUnlocked: bool
    var vialUnlockInProgress: bool
    var vialUnlockCounter: int
    var vialUnlockTimer: Word16

    function Abs(): State
      reads this
    {
      State(vialUnlocked, vialUnlockInProgress, vialUnlockCounter, vialUnlockTimer)
    }

    constructor (combo: seq<Position>)
      ensures Abs() == LOCKED && this.combo == combo
    {
      this.combo := combo;
      vialUnlocked, vialUnlockInProgress, vialUnlockCounter, vialUnlockTimer := false, false, 0, 0;
    }

    method HandleCommand(now: Word16, ghost t: Timed, command: Command)
      requires t.command == command && now == Low16(t.now)
      modifies this
      ensures Abs() == Handle(combo, old(Abs()), t)
    {
      match command
      case Start =>
        vialUnlockInProgress := true;
        vialUnlockCounter := COUNTER_MAX;
        vialUnlockTimer := now;
      case Poll(matrix) =>
        if vialUnlockInProgress {
          var holding := true;
          for i := 0 to |combo|
            invariant holding <==> forall j :: 0 <= j < i ==> matrix(combo[j])
          {
            holding := holding && matrix(combo[i]);
          }
          if Elapsed(now, vialUnlockTimer) > MIN_GAP && holding {
            vialUnlockTimer := now;
            vialUnlockCounter := vialUnlockCounter - 1;
            if vialUnlockCounter == 0 {
              vialUnlockInProgress := false;
              vialUnlocked := true;
            }
          } else {
            vialUnlockCounter := COUNTER_MAX;
          }
        }
      case Lock =>
        vialUnlocked := false;
    }
  }

  // ---------------------------------------------------------------- histories

  ghost predicate Chronological(h: seq<Timed>) {
    forall i, j :: 0 <= i <= j < |h| ==> h[i].now <= h[j].now
  }

  /** The polls since the latest start. */
  ghost function Polls(h: seq<Timed>): seq<Timed> {
    if h == [] || h[|h| - 1].command.Start? then []
    else if h[|h| - 1].command.Poll? then Polls(h[..|h| - 1]) + [h[|h| - 1]]
    else Polls(h[..|h| - 1])
  }

  ghost predicate HasStart(h: seq<Timed>) {
    exists i :: 0 <= i < |h| && h[i].command.Start?
  }

  ghost function StartTime(h: seq<Timed>): nat
    requires HasStart(h)
  {
    if h[|h| - 1].command.Start? then h[|h| - 1].now else StartTime(h[..|h| - 1])
  }

  /**
   The last `k` of these polls held the combination, each more than 100 ms after the one before,
   the first more than 100 ms after `since`.
   */
  ghost predicate HeldStreak(combo: seq<Position>, polls: seq<Timed>, k: nat, since: nat) {
    && k <= |polls|
    && (forall i :: |polls| - k <= i < |polls| ==> polls[i].command.Poll? && Holding(combo, polls[i].command.matrix))
    && (forall i :: |polls| - k < i < |polls| ==> polls[i].now > polls[i - 1].now + MIN_GAP)
    && (k > 0 ==> polls[|polls| - k].now > since + MIN_GAP)
  }

  // ---------------------------------------------------------------- polls that count

  /** Where the timer stands: at the latest start, or at the latest poll since that counted. */
  ghost function Mark(combo: seq<Position>, h: seq<Timed>): nat
    decreases |h|, 1
  {
    if h == [] then 0
    else if h[|h| - 1].command.Start? || Counts(combo, h) then h[|h| - 1].now
    else Mark(combo, h[..|h| - 1])
  }

  /** The latest command is a poll that counts: the combination is held, and the timer shows more than 100 ms. */
  ghost predicate Counts(combo: seq<Position>, h: seq<Timed>)
    decreases |h|, 0
  {
    && h != [] && h[|h| - 1].command.Poll? && Holding(combo, h[|h| - 1].command.matrix)
    && Elapsed(Low16(h[|h| - 1].now), Low16(Mark(combo, h[..|h| - 1]))) > MIN_GAP
  }

  /** Of each poll since the latest start, whether it counted. */
  ghost function Verdicts(combo: seq<Position>, h: seq<Timed>): seq<bool> {
    if h == [] || h[|h| - 1].command.Start? then []
    else if h[|h| - 1].command.Poll? then Verdicts(combo, h[..|h| - 1]) + [Counts(combo, h)]
    else Verdicts(combo, h[..|h| - 1])
  }

  /** The last `k` polls counted, and the one before them, if any, did not. */
  ghost predicate IsStreak(verdicts: seq<bool>, k: nat) {
    && k <= |verdicts|
    && (forall i :: |verdicts| - k <= i < |verdicts| ==> verdicts[i])
    && (k < |verdicts| ==> !verdicts[|verdicts| - 1 - k])
  }

  /** How many polls in a row have counted by now. */
  ghost function Streak(combo: seq<Position>, h: seq<Timed>): nat {
    if h == [] || h[|h| - 1].command.Start? then 0
    else if h[|h| - 1].command.Lock? then Streak(combo, h[..|h| - 1])
    else if Counts(combo, h) then Streak(combo, h[..|h| - 1]) + 1
    else 0
  }

  lemma LongerStreak(verdicts: seq<bool>, counted: bool, k: nat)
    ensures IsStreak(verdicts + [counted], k) <==> if k == 0 then !counted else counted && IsStreak(verdicts, k - 1)
  {
    var longer := verdicts + [counted];
    if k > 0 && IsStreak(longer, k) {
      assert longer[|verdicts|];
      forall i | |verdicts| - (k - 1) <= i < |verdicts| ensures verdicts[i] {
        assert longer[i];
      }
    }
  }

  /** That is the one maximal streak there is. */
  lemma {:induction false} StreakIff(combo: seq<Position>, h: seq<Timed>, k: nat)
    ensures IsStreak(Verdicts(combo, h), k) <==> k == Streak(combo, h)
  {
    if h != [] && !h[|h| - 1].command.Start? {
      var before := h[..|h| - 1];
      if h[|h| - 1].command.Lock? {
        StreakIff(combo, before, k);
      } else {
        LongerStreak(Verdicts(combo, before), Counts(combo, h), k);
        if k > 0 {
          StreakIff(combo, before, k - 1);
        }
      }
    }
  }

  /** While in progress, the timer is at the mark and the counter is 50 less the streak. */
  ghost predicate InProgressInv(combo: seq<Position>, h: seq<Timed>, s: State) {
    && HasStart(h)
    && 1 <= s.counter <= COUNTER_MAX && s.counter == COUNTER_MAX - Streak(combo, h)
    && s.timer == Low16(Mark(combo, h))
  }

  /** On every history the counter tells the current streak as long as an unlock is in progress. */
  lemma {:induction false} RunInProgress(combo: seq<Position>, h: seq<Timed>)
    ensures Run(combo, h).inProgress ==> InProgressInv(combo, h, Run(combo, h))
  {
    if h != [] {
      var before, t := h[..|h| - 1], h[|h| - 1];
      RunInProgress(combo, before);
      if t.command.Start? {
        assert h[|h| - 1].command.Start?;
      } else if Run(combo, h).inProgress {
        StartStays(before, t);
        assert h == before + [t];
      }
    }
  }

  lemma StartStays(h: seq<Timed>, t: Timed)
    requires HasStart(h)
    ensures HasStart(h + [t]) && (!t.command.Start? ==> StartTime(h + [t]) == StartTime(h))
  {
    var i :| 0 <= i < |h| && h[i].command.Start?;
    assert (h + [t])[i].command.Start?;
    assert (h + [t])[..|h + [t]| - 1] == h;
  }

  /** Only a lock takes the unlocked state away; it does nothing else, so that an unlock in progress goes on. */
  lemma OnlyLockLocks(combo: seq<Position>, h: seq<Timed>, t: Timed)
    ensures var s, s' := Run(combo, h), Run(combo, h + [t]);
      && (s.unlocked ==> (s'.unlocked <==> !t.command.Lock?))
      && (t.command.Lock? ==> s' == s.(unlocked := false))
  {
    assert (h + [t])[..|h + [t]| - 1] == h;
  }

  /** The next command unlocks exactly if it completes a streak of 50 while an unlock is in progress. */
  lemma UnlocksIff(combo: seq<Position>, h: seq<Timed>, t: Timed)
    requires !Run(combo, h).unlocked
    ensures Run(combo, h + [t]).unlocked <==>
            Run(combo, h).inProgress && t.command.Poll? && Streak(combo, h + [t]) == 50
  {
    assert (h + [t])[..|h + [t]| - 1] == h;
    RunInProgress(combo, h);
  }

  // ---------------------------------------------------------------- what a streak means in real time

  /** The 16-bit difference never exceeds the real one. */
  lemma ElapsedIsLowerBound(now: nat, base: nat)
    requires base <= now
    ensures Elapsed(Low16(now), Low16(base)) <= now - base
    ensures now - base < 0x1_0000 ==> Elapsed(Low16(now), Low16(base)) == now - base
  {
    assert Elapsed(Low16(now), Low16(base)) == (now - base) % 0x1_0000;
  }

  lemma StreakExtends(combo: seq<Position>, polls: seq<Timed>, k: nat, since: nat, t: Timed)
    requires HeldStreak(combo, polls, k, since) && t.command.Poll? && Holding(combo, t.command.matrix)
    requires t.now > (if k > 0 then polls[|polls| - 1].now else since) + MIN_GAP
    ensures HeldStreak(combo, polls + [t], k + 1, since)
  {
  }

  /** The mark is the time of the last poll of the streak, and after the latest start in any case. */
  ghost predicate Marked(combo: seq<Position>, h: seq<Timed>)
    requires HasStart(h)
  {
    && HeldStreak(combo, Polls(h), Streak(combo, h), StartTime(h))
    && StartTime(h) <= Mark(combo, h) <= h[|h| - 1].now
    && (Streak(combo, h) > 0 ==> Polls(h)[|Polls(h)| - 1].now == Mark(combo, h))
  }

  lemma NextMarked(combo: seq<Position>, h: seq<Timed>, t: Timed)
    requires HasStart(h) && Marked(combo, h) && h[|h| - 1].now <= t.now && !t.command.Start?
    ensures HasStart(h + [t]) && Marked(combo, h + [t])
  {
    var h' := h + [t];
    assert h'[..|h'| - 1] == h;
    StartStays(h, t);
    if Counts(combo, h') {
      CountedIsLate(combo, h, t);
      StreakExtends(combo, Polls(h), Streak(combo, h), StartTime(h), t);
    }
  }

  lemma CountedIsLate(combo: seq<Position>, h: seq<Timed>, t: Timed)
    requires Mark(combo, h) <= t.now && Counts(combo, h + [t])
    ensures t.now > Mark(combo, h) + MIN_GAP
  {
    assert (h + [t])[..|h + [t]| - 1] == h;
    ElapsedIsLowerBound(t.now, Mark(combo, h));
  }

  lemma StartMarked(combo: seq<Position>, h: seq<Timed>)
    requires HasStart(h) && h[|h| - 1].command.Start?
    ensures Marked(combo, h)
  {
  }

  lemma EarlierHistory(h: seq<Timed>, t: Timed)
    requires Chronological(h + [t]) && HasStart(h + [t]) && !t.command.Start?
    ensures Chronological(h) && HasStart(h) && h[|h| - 1].now <= t.now
  {
    var h' := h + [t];
    var k :| 0 <= k < |h'| && h'[k].command.Start?;
    assert h[k].command.Start?;
    assert h'[|h| - 1].now <= h'[|h|].now;
    forall i, j | 0 <= i <= j < |h| ensures h[i].now <= h[j].now {
      assert h'[i].now <= h'[j].now;
    }
  }

  /** The polls of a streak held the combination, each more than 100 ms after the one before or the start. */
  lemma {:induction false} StreakIsHeld(combo: seq<Position>, h: seq<Timed>)
    requires Chronological(h) && HasStart(h)
    ensures Marked(combo, h)
  {
    var before, t := h[..|h| - 1], h[|h| - 1];
    if t.command.Start? {
      StartMarked(combo, h);
    } else {
      assert h == before + [t];
      EarlierHistory(before, t);
      StreakIsHeld(combo, before);
      NextMarked(combo, before, t);
    }
  }

  /** What it takes: after the latest start, the last 50 polls all held the combination, well apart. */
  ghost predicate Earned(combo: seq<Position>, h: seq<Timed>) {
    && HasStart(h)
    && HeldStreak(combo, Polls(h), COUNTER_MAX, StartTime(h))
  }

  /** A keyboard that becomes unlocked has been held through 50 polls since the latest start. */
  lemma UnlockIsEarned(combo: seq<Position>, h: seq<Timed>, t: Timed)
    requires Chronological(h + [t])
    requires !Run(combo, h).unlocked && Run(combo, h + [t]).unlocked
    ensures t.command.Poll? && Earned(combo, h + [t])
    ensures var polls := Polls(h + [t]);
      |polls| >= 50 && forall i, p :: |polls| - 50 <= i < |polls| && p in combo ==> polls[i].command.matrix(p)
  {
    UnlocksIff(combo, h, t);
    RunInProgress(combo, h);
    StartStays(h, t);
    StreakIsHeld(combo, h + [t]);
  }

  lemma {:induction false} StreakTakesTime(combo: seq<Position>, polls: seq<Timed>, k: nat, since: nat)
    requires HeldStreak(combo, polls, k, since) && k > 0
    ensures polls[|polls| - 1].now >= since + k * (MIN_GAP + 1)
  {
    if k > 1 {
      var shorter := polls[..|polls| - 1];
      assert HeldStreak(combo, shorter, k - 1, since);
      StreakTakesTime(combo, shorter, k - 1, since);
    }
  }

  /** The wrap-around of the 16-bit timer cannot shorten it: unlocking takes at least 5050 ms from the start. */
  lemma UnlockTakesTime(combo: seq<Position>, h: seq<Timed>, t: Timed)
    requires Chronological(h + [t])
    requires !Run(combo, h).unlocked && Run(combo, h + [t]).unlocked
    ensures HasStart(h + [t]) && t.now >= StartTime(h + [t]) + 5050
  {
    UnlockIsEarned(combo, h, t);
    StreakTakesTime(combo, Polls(h + [t]), COUNTER_MAX, StartTime(h + [t]));
    assert (h + [t])[..|h + [t]| - 1] == h;
  }

  /** An unlocked keyboard earned it at some poll, and has not been locked since. */
  lemma {:induction false} UnlockedWasEarned(combo: seq<Position>, h: seq<Timed>)
    requires Chronological(h) && Run(combo, h).unlocked
    ensures exists n :: 0 < n <= |h| && Earned(combo, h[..n]) && forall i :: n <= i < |h| ==> !h[i].command.Lock?
  {
    var before, t := h[..|h| - 1], h[|h| - 1];
    assert h == before + [t];
    if Run(combo, before).unlocked {
      UnlockedWasEarned(combo, before);
      var n :| 0 < n <= |before| && Earned(combo, before[..n]) &&
               forall i :: n <= i < |before| ==> !before[i].command.Lock?;
      assert h[..n] == before[..n];
    } else {
      UnlockIsEarned(combo, before, t);
      assert h[..|h|] == h;
    }
  }

  // ---------------------------------------------------------------- and it is enough

  /** Polls with the combination held, each more than 100 ms and less than 65536 ms after the one before. */
  ghost predicate GoodPolls(combo: seq<Position>, polls: seq<Timed>, since: nat) {
    forall i :: 0 <= i < |polls| ==> GoodPoll(combo, polls, since, i)
  }

  ghost predicate GoodPoll(combo: seq<Position>, polls: seq<Timed>, since: nat, i: nat)
    requires i < |polls|
  {
    var last := if i == 0 then since else polls[i - 1].now;
    && polls[i].command.Poll? && Holding(combo, polls[i].command.matrix)
    && last + 100 < polls[i].now < last + 65536
  }

  function HandleAll(combo: seq<Position>, s: State, h: seq<Timed>): State {
    if h == [] then s else Handle(combo, HandleAll(combo, s, h[..|h| - 1]), h[|h| - 1])
  }

  /** After a start, `n` good polls leave `50 - n` to go, and the fiftieth unlocks. */
  lemma {:induction false} GoodPollsUnlock(combo: seq<Position>, s: State, start: nat, polls: seq<Timed>)
    requires GoodPolls(combo, polls, start) && |polls| <= 50
    ensures var s' := HandleAll(combo, Handle(combo, s, Timed(start, Start)), polls);
      if |polls| == 50 then s'.unlocked && !s'.inProgress
      else s'.inProgress && s'.counter == COUNTER_MAX - |polls| &&
           s'.timer == Low16(if polls == [] then start else polls[|polls| - 1].now)
  {
    if polls != [] {
      var before, t := polls[..|polls| - 1], polls[|polls| - 1];
      forall i | 0 <= i < |before| ensures GoodPoll(combo, before, start, i) {
        assert GoodPoll(combo, polls, start, i);
      }
      GoodPollsUnlock(combo, s, start, before);
      var last := if before == [] then start else before[|before| - 1].now;
      assert GoodPoll(combo, polls, start, |polls| - 1);
      ElapsedIsLowerBound(t.now, last);
    }
  }
}
