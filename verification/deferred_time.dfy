/**
 Due times on an unbounded clock. The ideal scheduler below keeps real due times; the firmware
 keeps their remainders modulo 2^32 and compares them through a signed 32-bit difference.
 */
module DeferredTime {
  import opened DeferredExec
  import opened DeferredTokens

  /**
   `due` was set at time `armed`: by a request or an extension, and then it is `first`,
   or by a repeating callback, and `returned` lists the delays its calls have returned since.
   */
  datatype Timer = Timer(token: Token, due: nat, callback: nat, arg: int, armed: nat, first: nat, returned: seq<U32>)

  const FREE_TIMER := Timer(INVALID_TOKEN, 0, 0, 0, 0, 0, [])

  datatype Firing = Firing(timer: Timer, at: nat)

  datatype Ideal = Ideal(timers: seq<Timer>, fired: seq<Firing>, current: Token, last: nat, passes: set<nat>)

  function Word32(n: nat): U32 {
    n % WORD
  }

  function EntryOf(t: Timer): Entry {
    Entry(t.token, Word32(t.due), t.callback, t.arg)
  }

  function CallOf(f: Firing): Call {
    Call(f.timer.token, Word32(f.timer.due), f.timer.callback, f.timer.arg)
  }

  function TableOf(timers: seq<Timer>): (table: seq<Entry>)
    ensures |table| == |timers|
  {
    seq(|timers|, i requires 0 <= i < |timers| => EntryOf(timers[i]))
  }

  function CallsOf(fired: seq<Firing>): (calls: seq<Call>)
    ensures |calls| == |fired|
  {
    seq(|fired|, i requires 0 <= i < |fired| => CallOf(fired[i]))
  }

  function WordsOf(s: Ideal): Sched {
    Sched(TableOf(s.timers), CallsOf(s.fired), s.current, Word32(s.last))
  }

  // ---------------------------------------------------------------- the ideal scheduler

  function Rearmed(t: Timer, now: nat, delay: U32): Timer {
    t.(due := now + delay, armed := now, first := now + delay, returned := [])
  }

  function Repeated(t: Timer, now: nat, delay: U32): Timer {
    t.(due := t.due + delay, armed := now, returned := t.returned + [delay])
  }

  predicate IsLive(t: Timer) {
    t.token != INVALID_TOKEN
  }

  function IdealDefer(s: Ideal, now: nat, delay: U32, callback: nat, arg: int): Ideal {
    var table := TableOf(s.timers);
    var i := Find(table, INVALID_TOKEN);
    if delay == 0 || callback == 0 || i == |table| then s
    else
      var token := Allocate(table, s.current);
      if token == INVALID_TOKEN then s.(current := NextToken(s.current))
      else s.(current := token, timers := s.timers[i := Timer(token, now + delay, callback, arg, now, now + delay, [])])
  }

  function IdealExtend(s: Ideal, now: nat, token: Token, delay: U32): Ideal {
    var i := Find(TableOf(s.timers), token);
    if delay == 0 || token == INVALID_TOKEN || i == |s.timers| then s
    else s.(timers := s.timers[i := Rearmed(s.timers[i], now, delay)])
  }

  function IdealCancel(s: Ideal, token: Token): Ideal {
    var i := Find(TableOf(s.timers), token);
    if token == INVALID_TOKEN || i == |s.timers| then s
    else s.(timers := s.timers[i := FREE_TIMER])
  }

  /** A live timer fires if its due time has come; a repeating one is due again counting from that time. */
  function IdealVisit(answers: Answers, s: Ideal, now: nat, i: nat): (s': Ideal)
    requires i < |s.timers|
    ensures |s'.timers| == |s.timers| && s'.last == s.last && s'.passes == s.passes
  {
    var t := s.timers[i];
    if IsLive(t) && t.due <= now then
      var delay := answers(CallsOf(s.fired), CallOf(Firing(t, now)));
      s.(fired := s.fired + [Firing(t, now)],
         timers := s.timers[i := if delay > 0 then Repeated(t, now, delay) else FREE_TIMER])
    else s
  }

  function IdealVisitBelow(answers: Answers, s: Ideal, now: nat, n: nat): (s': Ideal)
    requires n <= |s.timers|
    ensures |s'.timers| == |s.timers| && s'.last == s.last && s'.passes == s.passes
  {
    if n == 0 then s else IdealVisit(answers, IdealVisitBelow(answers, s, now, n - 1), now, n - 1)
  }

  function IdealTask(answers: Answers, s: Ideal, now: nat): Ideal {
    if now > s.last then
      var v := IdealVisitBelow(answers, s.(last := now), now, |s.timers|);
      v.(passes := v.passes + {now})
    else s
  }

  function IdealDo(answers: Answers, s: Ideal, now: nat, op: Op): Ideal {
    match op
    case DeferOp(delay, callback, arg) => IdealDefer(s, now, delay, callback, arg)
    case ExtendOp(token, delay) => IdealExtend(s, now, token, delay)
    case CancelOp(token) => IdealCancel(s, token)
    case TaskOp => IdealTask(answers, s, now)
  }

  function IdealDoAll(answers: Answers, s: Ideal, ops: seq<(nat, Op)>): Ideal {
    if ops == [] then s
    else IdealDo(answers, IdealDoAll(answers, s, ops[..|ops| - 1]), ops[|ops| - 1].0, ops[|ops| - 1].1)
  }

  function IdealStart(slots: nat): Ideal {
    Ideal(seq(slots, _ => FREE_TIMER), [], 0, 0, {})
  }

  // ---------------------------------------------------------------- the signed comparison

  /** Within one turn of the clock, the code's test is right exactly when the due time is less than half a turn away. */
  lemma SignedTestIff(due: nat, now: nat)
    requires -WORD < due - now < WORD
    ensures (Signed32(Diff32(Word32(due), Word32(now))) <= 0 <==> due <= now) <==> -HALF <= due - now < HALF
  {
    WordDifference(due, now);
  }

  lemma WordDifference(a: nat, b: nat)
    ensures Diff32(Word32(a), Word32(b)) == (a - b) % WORD
  {
    var qa, qb := a / WORD, b / WORD;
    assert Word32(a) - Word32(b) == (a - b) - (qa - qb) * WORD;
    ModMultiple(a - b, qb - qa);
  }

  lemma {:induction false} ModMultiple(x: int, k: int)
    ensures (x + k * WORD) % WORD == x % WORD
    decreases if k < 0 then -k else k
  {
    if k > 0 {
      ModMultiple(x, k - 1);
      assert x + k * WORD == (x + (k - 1) * WORD) + WORD;
    } else if k < 0 {
      ModMultiple(x, k + 1);
      assert x + k * WORD == (x + (k + 1) * WORD) - WORD;
    }
  }

  lemma WordSum(a: nat, b: U32)
    ensures Plus32(Word32(a), b) == Word32(a + b)
  {
    var q := a / WORD;
    assert a + b == (Word32(a) + b) + q * WORD;
    ModMultiple(Word32(a) + b, q);
  }

  // ---------------------------------------------------------------- the firmware does what the ideal does

  /** Delays are shorter than half a turn of the clock. */
  ghost predicate ShortDelays(answers: Answers) {
    forall calls, c :: answers(calls, c) < HALF
  }

  predicate ShortDelay(op: Op) {
    match op
    case DeferOp(delay, _, _) => delay < HALF
    case ExtendOp(_, delay) => delay < HALF
    case _ => true
  }

  /** Passes are less than half a turn apart, and no timer lags further than that behind. */
  predicate Timely(s: Ideal, now: nat) {
    && s.last <= now < s.last + HALF
    && forall i :: 0 <= i < |s.timers| && IsLive(s.timers[i]) ==> now - s.timers[i].due <= HALF
  }

  /** A due time is never set half a turn or more ahead. */
  ghost predicate DueSoon(t: Timer, now: nat) {
    IsLive(t) ==> t.armed <= now && t.due < t.armed + HALF
  }

  ghost predicate AllDueSoon(s: Ideal, now: nat) {
    forall i :: 0 <= i < |s.timers| ==> DueSoon(s.timers[i], now)
  }

  lemma TableUpdate(timers: seq<Timer>, i: nat, t: Timer)
    requires i < |timers|
    ensures TableOf(timers[i := t]) == TableOf(timers)[i := EntryOf(t)]
  {
  }

  lemma CallsAppend(fired: seq<Firing>, f: Firing)
    ensures CallsOf(fired + [f]) == CallsOf(fired) + [CallOf(f)]
  {
  }

  lemma DeferRefines(s: Ideal, now: nat, delay: U32, callback: nat, arg: int)
    ensures WordsOf(IdealDefer(s, now, delay, callback, arg)) == Defer(WordsOf(s), Word32(now), delay, callback, arg).0
  {
    var i := Find(TableOf(s.timers), INVALID_TOKEN);
    if i < |s.timers| {
      var token := Allocate(TableOf(s.timers), s.current);
      TableUpdate(s.timers, i, Timer(token, now + delay, callback, arg, now, now + delay, []));
      WordSum(now, delay);
    }
  }

  lemma ExtendRefines(s: Ideal, now: nat, token: Token, delay: U32)
    ensures WordsOf(IdealExtend(s, now, token, delay)) == Extend(WordsOf(s), Word32(now), token, delay).0
  {
    var i := Find(TableOf(s.timers), token);
    if i < |s.timers| {
      TableUpdate(s.timers, i, Rearmed(s.timers[i], now, delay));
      WordSum(now, delay);
    }
  }

  lemma CancelRefines(s: Ideal, token: Token)
    ensures WordsOf(IdealCancel(s, token)) == Cancel(WordsOf(s), token).0
  {
    var i := Find(TableOf(s.timers), token);
    if i < |s.timers| {
      TableUpdate(s.timers, i, FREE_TIMER);
    }
  }

  lemma VisitRefines(answers: Answers, s: Ideal, now: nat, i: nat)
    requires i < |s.timers|
    requires IsLive(s.timers[i]) ==> -HALF <= s.timers[i].due - now < HALF
    ensures WordsOf(IdealVisit(answers, s, now, i)) == Visit(answers, WordsOf(s), Word32(now), i)
  {
    var t := s.timers[i];
    if IsLive(t) {
      SignedTestIff(t.due, now);
      if t.due <= now {
        var delay := answers(CallsOf(s.fired), CallOf(Firing(t, now)));
        CallsAppend(s.fired, Firing(t, now));
        WordSum(t.due, delay);
        TableUpdate(s.timers, i, Repeated(t, now, delay));
        TableUpdate(s.timers, i, FREE_TIMER);
      }
    }
  }

  /** Visiting earlier slots leaves the later ones as they were. */
  lemma {:induction false} VisitsLeaveRest(answers: Answers, s: Ideal, now: nat, n: nat)
    requires n <= |s.timers|
    ensures IdealVisitBelow(answers, s, now, n).timers[n..] == s.timers[n..]
  {
    if n > 0 {
      VisitsLeaveRest(answers, s, now, n - 1);
      var v := IdealVisitBelow(answers, s, now, n - 1);
      assert v.timers[n..] == v.timers[n - 1..][1..] == s.timers[n - 1..][1..] == s.timers[n..];
    }
  }

  lemma VisitedSlotAsBefore(answers: Answers, s: Ideal, now: nat, i: nat)
    requires i < |s.timers|
    ensures IdealVisitBelow(answers, s, now, i).timers[i] == s.timers[i]
  {
    VisitsLeaveRest(answers, s, now, i);
    var v := IdealVisitBelow(answers, s, now, i);
    assert v.timers[i] == v.timers[i..][0] == s.timers[i..][0];
  }

  lemma {:induction false} VisitsRefine(answers: Answers, s: Ideal, now: nat, n: nat)
    requires n <= |s.timers|
    requires forall i :: 0 <= i < |s.timers| && IsLive(s.timers[i]) ==> -HALF <= s.timers[i].due - now < HALF
    ensures WordsOf(IdealVisitBelow(answers, s, now, n)) == VisitBelow(answers, WordsOf(s), Word32(now), n)
  {
    if n > 0 {
      VisitsRefine(answers, s, now, n - 1);
      VisitedSlotAsBefore(answers, s, now, n - 1);
      var v := IdealVisitBelow(answers, s, now, n - 1);
      assert v.timers[n - 1] == s.timers[n - 1];
      VisitRefines(answers, v, now, n - 1);
    }
  }

  /** A pass on 32-bit words is the ideal pass: it fires exactly what is due. */
  lemma TaskRefines(answers: Answers, s: Ideal, now: nat)
    requires Timely(s, now) && AllDueSoon(s, now)
    ensures WordsOf(IdealTask(answers, s, now)) == Task(answers, WordsOf(s), Word32(now))
  {
    WordDifference(now, s.last);
    if now > s.last {
      var s1 := s.(last := now);
      forall i | 0 <= i < |s.timers| && IsLive(s.timers[i]) ensures -HALF <= s.timers[i].due - now < HALF {
        assert DueSoon(s.timers[i], now);
      }
      VisitsRefine(answers, s1, now, |s.timers|);
    }
  }

  /** A slot the words do not see as due is left alone by the pass. */
  lemma {:induction false} WordSlotKept(answers: Answers, s: Sched, now: U32, i: nat, n: nat)
    requires i < |s.table| && n <= |s.table| && !IsDue(s.table[i], now)
    ensures VisitBelow(answers, s, now, n).table[i] == s.table[i]
  {
    if n > 0 {
      WordSlotKept(answers, s, now, i, n - 1);
    }
  }

  /** A slot that is due is set anew by the ideal pass, and never to what it was. */
  lemma {:induction false} IdealSlotChanges(answers: Answers, s: Ideal, now: nat, i: nat, n: nat)
    requires i < n <= |s.timers| && IsLive(s.timers[i]) && s.timers[i].due <= now
    ensures EntryOf(IdealVisitBelow(answers, s, now, n).timers[i]) != EntryOf(s.timers[i])
  {
    if i < n - 1 {
      IdealSlotChanges(answers, s, now, i, n - 1);
    } else {
      VisitedSlotAsBefore(answers, s, now, i);
      var v, t := IdealVisitBelow(answers, s, now, i), s.timers[i];
      var delay := answers(CallsOf(v.fired), CallOf(Firing(t, now)));
      if delay > 0 {
        WordDifference(t.due + delay, t.due);
      }
    }
  }

  /**
   With the clock less than a full turn ahead of every timer, an effective pass on words is the ideal one
   if and only if no live timer lags by more than half a turn.
   */
  lemma TaskRefinesIff(answers: Answers, s: Ideal, now: nat)
    requires s.last < now < s.last + HALF && AllDueSoon(s, now)
    requires forall i :: 0 <= i < |s.timers| && IsLive(s.timers[i]) ==> now - s.timers[i].due < WORD
    ensures WordsOf(IdealTask(answers, s, now)) == Task(answers, WordsOf(s), Word32(now)) <==>
            forall i :: 0 <= i < |s.timers| && IsLive(s.timers[i]) ==> now - s.timers[i].due <= HALF
  {
    if forall i :: 0 <= i < |s.timers| && IsLive(s.timers[i]) ==> now - s.timers[i].due <= HALF {
      TaskRefines(answers, s, now);
    } else {
      var i :| 0 <= i < |s.timers| && IsLive(s.timers[i]) && now - s.timers[i].due > HALF;
      var s1 := s.(last := now);
      SignedTestIff(s.timers[i].due, now);
      WordDifference(now, s.last);
      WordSlotKept(answers, WordsOf(s1), Word32(now), i, |s.timers|);
      IdealSlotChanges(answers, s1, now, i, |s.timers|);
      assert WordsOf(IdealTask(answers, s, now)).table[i] != Task(answers, WordsOf(s), Word32(now)).table[i];
    }
  }

  lemma DoRefines(answers: Answers, s: Ideal, now: nat, op: Op)
    requires op.TaskOp? ==> Timely(s, now) && AllDueSoon(s, now)
    ensures WordsOf(IdealDo(answers, s, now, op)) == Do(answers, WordsOf(s), Word32(now), op)
  {
    match op
    case DeferOp(delay, callback, arg) => DeferRefines(s, now, delay, callback, arg);
    case ExtendOp(token, delay) => ExtendRefines(s, now, token, delay);
    case CancelOp(token) => CancelRefines(s, token);
    case TaskOp => TaskRefines(answers, s, now);
  }

  // ---------------------------------------------------------------- runs

  /** Times never run backwards, all delays are short, and every pass is timely. */
  ghost predicate TimelyRun(answers: Answers, s: Ideal, ops: seq<(nat, Op)>) {
    ops == [] ||
    (var before := ops[..|ops| - 1];
     var (now, op) := ops[|ops| - 1];
     && TimelyRun(answers, s, before)
     && (before != [] ==> before[|before| - 1].0 <= now)
     && ShortDelay(op)
     && (op.TaskOp? ==> Timely(IdealDoAll(answers, s, before), now)))
  }

  function WordOps(ops: seq<(nat, Op)>): (w: seq<(U32, Op)>)
    ensures |w| == |ops|
  {
    seq(|ops|, i requires 0 <= i < |ops| => (Word32(ops[i].0), ops[i].1))
  }

  lemma {:induction false} VisitsKeepDueSoon(answers: Answers, s: Ideal, now: nat, n: nat)
    requires n <= |s.timers| && ShortDelays(answers) && AllDueSoon(s, now)
    ensures AllDueSoon(IdealVisitBelow(answers, s, now, n), now)
  {
    if n > 0 {
      VisitsKeepDueSoon(answers, s, now, n - 1);
      var v := IdealVisitBelow(answers, s, now, n - 1);
      assert DueSoon(v.timers[n - 1], now);
    }
  }

  lemma DoKeepsDueSoon(answers: Answers, s: Ideal, now: nat, op: Op)
    requires ShortDelays(answers) && AllDueSoon(s, now) && ShortDelay(op)
    ensures AllDueSoon(IdealDo(answers, s, now, op), now)
  {
    if op.TaskOp? && now > s.last {
      VisitsKeepDueSoon(answers, s.(last := now), now, |s.timers|);
    }
  }

  lemma {:induction false} RunKeepsDueSoon(answers: Answers, slots: nat, ops: seq<(nat, Op)>, now: nat)
    requires ShortDelays(answers) && TimelyRun(answers, IdealStart(slots), ops)
    requires ops != [] ==> ops[|ops| - 1].0 <= now
    ensures AllDueSoon(IdealDoAll(answers, IdealStart(slots), ops), now)
  {
    if ops != [] {
      var before := ops[..|ops| - 1];
      var (t, op) := ops[|ops| - 1];
      RunKeepsDueSoon(answers, slots, before, t);
      var s := IdealDoAll(answers, IdealStart(slots), before);
      DoKeepsDueSoon(answers, s, t, op);
      var s' := IdealDo(answers, s, t, op);
      assert forall i :: 0 <= i < |s'.timers| ==> DueSoon(s'.timers[i], t);
    }
  }

  /** Over every timely run the 32-bit scheduler makes the same calls, and keeps the same table, as the ideal one. */
  lemma {:induction false} RunRefines(answers: Answers, slots: nat, ops: seq<(nat, Op)>)
    requires ShortDelays(answers) && TimelyRun(answers, IdealStart(slots), ops)
    ensures WordsOf(IdealDoAll(answers, IdealStart(slots), ops)) ==
            DoAll(answers, Sched(seq(slots, _ => FREE_ENTRY), [], 0, 0), WordOps(ops))
  {
    if ops == [] {
      assert TableOf(IdealStart(slots).timers) == seq(slots, _ => FREE_ENTRY);
    } else {
      var before := ops[..|ops| - 1];
      var (now, op) := ops[|ops| - 1];
      RunRefines(answers, slots, before);
      RunKeepsDueSoon(answers, slots, before, now);
      DoRefines(answers, IdealDoAll(answers, IdealStart(slots), before), now, op);
      assert WordOps(ops)[..|ops| - 1] == WordOps(before);
    }
  }

  // ---------------------------------------------------------------- a pass fires exactly what is due

  function DueBelow(timers: seq<Timer>, now: nat, n: nat): seq<Firing>
    requires n <= |timers|
  {
    if n == 0 then []
    else DueBelow(timers, now, n - 1) +
         if IsLive(timers[n - 1]) && timers[n - 1].due <= now then [Firing(timers[n - 1], now)] else []
  }

  lemma {:induction false} VisitsFireDue(answers: Answers, s: Ideal, now: nat, n: nat)
    requires n <= |s.timers|
    ensures IdealVisitBelow(answers, s, now, n).fired == s.fired + DueBelow(s.timers, now, n)
  {
    if n > 0 {
      VisitsFireDue(answers, s, now, n - 1);
      VisitedSlotAsBefore(answers, s, now, n - 1);
    }
  }

  /** An effective pass calls each timer that is due once, in slot order, and no other. */
  lemma PassFiresExactlyDue(answers: Answers, s: Ideal, now: nat)
    ensures IdealTask(answers, s, now).fired ==
            if now > s.last then s.fired + DueBelow(s.timers, now, |s.timers|) else s.fired
  {
    VisitsFireDue(answers, s.(last := now), now, |s.timers|);
  }

  // ---------------------------------------------------------------- when timers fire, over whole runs

  /** No pass so far could have fired the timer since its due time was set. */
  ghost predicate StillWaiting(t: Timer, passes: set<nat>) {
    forall p :: p in passes && p > t.armed ==> p < t.due
  }

  /** Fired when due and not before, and at the first pass after it was set that found it due. */
  ghost predicate FiredOnTime(f: Firing, passes: set<nat>) {
    f.timer.due <= f.at && forall p :: p in passes && p > f.timer.armed && p >= f.timer.due ==> f.at <= p
  }

  function Sum(delays: seq<U32>): nat {
    if delays == [] then 0 else Sum(delays[..|delays| - 1]) + delays[|delays| - 1]
  }

  /** The timer was last set by firing `j`: that call's answer was added to that firing's due time. */
  ghost predicate SetByFiring(answers: Answers, fired: seq<Firing>, t: Timer, j: nat)
    requires j < |fired| && t.returned != []
  {
    var k := |t.returned| - 1;
    var u := fired[j].timer;
    && u.token == t.token && u.first == t.first && u.returned == t.returned[..k]
    && t.returned[k] == answers(CallsOf(fired[..j]), CallOf(fired[j]))
  }

  /** The due time is the first trigger plus all delays returned since, however late the passes ran. */
  ghost predicate OnSchedule(answers: Answers, fired: seq<Firing>, t: Timer) {
    && t.due == t.first + Sum(t.returned)
    && (t.returned != [] ==> exists j :: 0 <= j < |fired| && SetByFiring(answers, fired, t, j))
  }

  /** `f` was fired on time and on schedule, with `before` fired earlier. */
  ghost predicate WellFired(answers: Answers, s: Ideal, before: seq<Firing>, f: Firing) {
    f.at <= s.last && FiredOnTime(f, s.passes) && OnSchedule(answers, before, f.timer)
  }

  ghost predicate TimeInv(answers: Answers, s: Ideal) {
    && (forall p :: p in s.passes ==> p <= s.last)
    && (forall i :: 0 <= i < |s.timers| && IsLive(s.timers[i]) ==>
          StillWaiting(s.timers[i], s.passes) && OnSchedule(answers, s.fired, s.timers[i]))
    && (forall m :: 0 <= m < |s.fired| ==> WellFired(answers, s, s.fired[..m], s.fired[m]))
  }

  lemma OnScheduleLater(answers: Answers, fired: seq<Firing>, f: Firing, t: Timer)
    requires OnSchedule(answers, fired, t)
    ensures OnSchedule(answers, fired + [f], t)
  {
    if t.returned != [] {
      var j :| 0 <= j < |fired| && SetByFiring(answers, fired, t, j);
      assert (fired + [f])[..j] == fired[..j];
      assert SetByFiring(answers, fired + [f], t, j);
    }
  }

  lemma RepeatedOnSchedule(answers: Answers, fired: seq<Firing>, t: Timer, now: nat)
    requires OnSchedule(answers, fired, t)
    ensures var delay := answers(CallsOf(fired), CallOf(Firing(t, now)));
      OnSchedule(answers, fired + [Firing(t, now)], Repeated(t, now, delay))
  {
    var delay := answers(CallsOf(fired), CallOf(Firing(t, now)));
    var t' := Repeated(t, now, delay);
    assert t'.returned[..|t'.returned| - 1] == t.returned;
    assert (fired + [Firing(t, now)])[..|fired|] == fired;
    assert SetByFiring(answers, fired + [Firing(t, now)], t', |fired|);
  }

  /** During a pass: the slots already visited are not due any more. */
  ghost predicate Passed(s: Ideal, now: nat, n: nat)
    requires n <= |s.timers|
  {
    forall i :: 0 <= i < n && IsLive(s.timers[i]) ==> s.timers[i].due > now || s.timers[i].armed == now
  }

  lemma FiringKeepsTimers(answers: Answers, s: Ideal, now: nat, i: nat)
    requires TimeInv(answers, s) && i < |s.timers| && s.last == now
    requires IsLive(s.timers[i]) && s.timers[i].due <= now
    ensures var s' := IdealVisit(answers, s, now, i);
      forall j :: 0 <= j < |s'.timers| && IsLive(s'.timers[j]) ==>
        StillWaiting(s'.timers[j], s'.passes) && OnSchedule(answers, s'.fired, s'.timers[j])
  {
    var t, s' := s.timers[i], IdealVisit(answers, s, now, i);
    forall j | 0 <= j < |s'.timers| && IsLive(s'.timers[j])
      ensures StillWaiting(s'.timers[j], s'.passes) && OnSchedule(answers, s'.fired, s'.timers[j])
    {
      if j == i {
        RepeatedOnSchedule(answers, s.fired, t, now);
      } else {
        OnScheduleLater(answers, s.fired, Firing(t, now), s.timers[j]);
      }
    }
  }

  lemma FiringKeepsFired(answers: Answers, s: Ideal, f: Firing)
    requires forall m :: 0 <= m < |s.fired| ==> WellFired(answers, s, s.fired[..m], s.fired[m])
    requires WellFired(answers, s, s.fired, f)
    ensures var fired := s.fired + [f];
      forall m :: 0 <= m < |fired| ==> WellFired(answers, s, fired[..m], fired[m])
  {
    var fired := s.fired + [f];
    forall m | 0 <= m < |fired| ensures WellFired(answers, s, fired[..m], fired[m]) {
      assert fired[..m] == s.fired[..m];
      assert s.fired[..|s.fired|] == s.fired;
    }
  }

  lemma VisitKeepsTimeInv(answers: Answers, s: Ideal, now: nat, i: nat)
    requires TimeInv(answers, s) && i < |s.timers| && Passed(s, now, i) && s.last == now
    ensures TimeInv(answers, IdealVisit(answers, s, now, i)) && Passed(IdealVisit(answers, s, now, i), now, i + 1)
  {
    var t := s.timers[i];
    if IsLive(t) && t.due <= now {
      FiringKeepsTimers(answers, s, now, i);
      FiringKeepsFired(answers, s, Firing(t, now));
    }
  }

  lemma {:induction false} VisitsKeepTimeInv(answers: Answers, s: Ideal, now: nat, n: nat)
    requires TimeInv(answers, s) && n <= |s.timers| && s.last == now
    ensures TimeInv(answers, IdealVisitBelow(answers, s, now, n)) && Passed(IdealVisitBelow(answers, s, now, n), now, n)
  {
    if n > 0 {
      VisitsKeepTimeInv(answers, s, now, n - 1);
      VisitKeepsTimeInv(answers, IdealVisitBelow(answers, s, now, n - 1), now, n - 1);
    }
  }

  lemma TaskKeepsTimeInv(answers: Answers, s: Ideal, now: nat)
    requires TimeInv(answers, s)
    ensures TimeInv(answers, IdealTask(answers, s, now))
  {
    if now > s.last {
      VisitsKeepTimeInv(answers, s.(last := now), now, |s.timers|);
    }
  }

  lemma DoKeepsTimeInv(answers: Answers, s: Ideal, now: nat, op: Op)
    requires TimeInv(answers, s) && s.last <= now
    ensures TimeInv(answers, IdealDo(answers, s, now, op)) && IdealDo(answers, s, now, op).last <= now
  {
    if op.TaskOp? {
      TaskKeepsTimeInv(answers, s, now);
    }
  }

  /**
   On every run in which time does not run backwards: no callback is called before its due time,
   each is called at the first pass after its due time was set that finds it due,
   and a repeating timer's due times are its first one plus the sums of the delays it returned.
   */
  lemma {:induction false} RunsOnTime(answers: Answers, slots: nat, ops: seq<(nat, Op)>)
    requires forall i :: 0 < i < |ops| ==> ops[i - 1].0 <= ops[i].0
    ensures TimeInv(answers, IdealDoAll(answers, IdealStart(slots), ops))
    ensures IdealDoAll(answers, IdealStart(slots), ops).last <= if ops == [] then 0 else ops[|ops| - 1].0
  {
    if ops != [] {
      var before := ops[..|ops| - 1];
      RunsOnTime(answers, slots, before);
      DoKeepsTimeInv(answers, IdealDoAll(answers, IdealStart(slots), before), ops[|ops| - 1].0, ops[|ops| - 1].1);
    }
  }

  lemma {:induction false} LastIsPass(answers: Answers, slots: nat, ops: seq<(nat, Op)>)
    ensures var s := IdealDoAll(answers, IdealStart(slots), ops); s.last == 0 || s.last in s.passes
  {
    if ops != [] {
      LastIsPass(answers, slots, ops[..|ops| - 1]);
    }
  }

  /**
   A timer that has not fallen behind (every one that does not repeat) is within reach of the
   signed comparison at the next pass, whatever happened, if passes are less than half a turn apart.
   */
  lemma GapBoundsLag(answers: Answers, slots: nat, ops: seq<(nat, Op)>, now: nat)
    requires forall i :: 0 < i < |ops| ==> ops[i - 1].0 <= ops[i].0
    requires var s := IdealDoAll(answers, IdealStart(slots), ops); s.last <= now < s.last + HALF
    ensures var s := IdealDoAll(answers, IdealStart(slots), ops);
      forall i :: 0 <= i < |s.timers| && IsLive(s.timers[i]) && s.timers[i].due >= s.timers[i].armed ==>
        now - s.timers[i].due <= HALF
  {
    RunsOnTime(answers, slots, ops);
    LastIsPass(answers, slots, ops);
    LagFromGap(answers, IdealDoAll(answers, IdealStart(slots), ops), now);
  }

  lemma LagFromGap(answers: Answers, s: Ideal, now: nat)
    requires TimeInv(answers, s) && (s.last == 0 || s.last in s.passes) && s.last <= now < s.last + HALF
    ensures forall i :: 0 <= i < |s.timers| && IsLive(s.timers[i]) && s.timers[i].due >= s.timers[i].armed ==>
      now - s.timers[i].due <= HALF
  {
  }

  /** Why passes must not lag: an overdue timer more than half a turn behind is not called. */
  lemma LaggingTimerIsSkipped(answers: Answers, s: Sched, i: nat, due: nat, now: nat)
    requires i < |s.table| && s.table[i].trigger == Word32(due)
    requires HALF < now - due < WORD
    ensures Visit(answers, s, Word32(now), i) == s
  {
    SignedTestIff(due, now);
  }

  // ---------------------------------------------------------------- a run that falls behind

  /** A callback that asks to be called again 1 ms after it was due, as often as it is called. */
  function EveryMillisecond(): Answers {
    (calls, c) => 1
  }

  const SLOW_PASSES: seq<(nat, Op)> := [(0, DeferOp(1, 1, 0)), (HALF - 1, TaskOp), (2 * HALF - 2, TaskOp)]

  lemma IdealFallsBehind()
    ensures |IdealDoAll(EveryMillisecond(), IdealStart(1), SLOW_PASSES).fired| == 2
  {
    var a, s0 := EveryMillisecond(), IdealStart(1);
    var s1 := IdealDo(a, s0, 0, DeferOp(1, 1, 0));
    assert s1.timers == [Timer(1, 1, 1, 0, 0, 1, [])];
    var s2 := IdealDo(a, s1, HALF - 1, TaskOp);
    assert s2 == IdealVisit(a, s1.(last := HALF - 1), HALF - 1, 0).(passes := {HALF - 1}) by {
      assert IdealVisitBelow(a, s1.(last := HALF - 1), HALF - 1, 0) == s1.(last := HALF - 1);
    }
    var delays: seq<U32> := [];
    assert delays + [1] == [1];
    assert s2.timers[0] == Repeated(s1.timers[0], HALF - 1, 1) == Timer(1, 2, 1, 0, HALF - 1, 1, [1]);
    assert |s2.timers| == 1 && |s2.fired| == 1;
    var s3 := IdealDo(a, s2, 2 * HALF - 2, TaskOp);
    assert IdealVisitBelow(a, s2.(last := 2 * HALF - 2), 2 * HALF - 2, 0) == s2.(last := 2 * HALF - 2);
    assert |s3.fired| == 2;
    assert |SLOW_PASSES[..1][..0]| == 0 && SLOW_PASSES[..2][..1] == SLOW_PASSES[..1];
    assert IdealDoAll(a, s0, SLOW_PASSES[..1]) == s1;
    assert IdealDoAll(a, s0, SLOW_PASSES[..2]) == s2;
  }

  lemma WordsFallBehind()
    ensures |DoAll(EveryMillisecond(), Sched([FREE_ENTRY], [], 0, 0), WordOps(SLOW_PASSES)).calls| == 1
  {
    var a, s0 := EveryMillisecond(), Sched([FREE_ENTRY], [], 0, 0);
    var ops: seq<(U32, Op)> := WordOps(SLOW_PASSES);
    var s1 := Do(a, s0, 0, DeferOp(1, 1, 0));
    assert s1 == Sched([Entry(1, 1, 1, 0)], [], 1, 0);
    var s2 := Do(a, s1, HALF - 1, TaskOp);
    assert VisitBelow(a, s1.(last := HALF - 1), HALF - 1, 0) == s1.(last := HALF - 1);
    assert s2.table == [Entry(1, 2, 1, 0)] && |s2.calls| == 1;
    var s3 := Do(a, s2, 2 * HALF - 2, TaskOp);
    assert VisitBelow(a, s2.(last := 2 * HALF - 2), 2 * HALF - 2, 0) == s2.(last := 2 * HALF - 2);
    assert |s3.calls| == 1;
    assert |ops[..1][..0]| == 0 && ops[..2][..1] == ops[..1];
    assert DoAll(a, s0, ops[..1]) == s1;
    assert DoAll(a, s0, ops[..2]) == s2;
  }

  /**
   Passes less than half a turn apart are not enough for a repeating timer: asking for 1 ms each time,
   it is a whole turn less 4 ms late by the second pass, and the firmware does not call it any more.
   */
  lemma RepeatingTimerFallsBehind()
    ensures forall i :: 0 < i < |SLOW_PASSES| ==> 0 < SLOW_PASSES[i].0 - SLOW_PASSES[i - 1].0 < HALF
    ensures |IdealDoAll(EveryMillisecond(), IdealStart(1), SLOW_PASSES).fired| == 2
    ensures |DoAll(EveryMillisecond(), Sched([FREE_ENTRY], [], 0, 0), WordOps(SLOW_PASSES)).calls| == 1
  {
    IdealFallsBehind();
    WordsFallBehind();
  }
}
