/** Tokens: every live one names one timer, and a request is turned down only when it has to be. */
module DeferredTokens {
  import opened DeferredExec

  /** No two live entries share a token. */
  ghost predicate Distinct(table: seq<Entry>) {
    forall i, j :: 0 <= i < j < |table| && table[i].token != INVALID_TOKEN ==> table[i].token != table[j].token
  }

  datatype Op =
    | DeferOp(delay: U32, callback: nat, arg: int)
    | ExtendOp(token: Token, delay: U32)
    | CancelOp(token: Token)
    | TaskOp

  function Do(answers: Answers, s: Sched, now: U32, op: Op): Sched {
    match op
    case DeferOp(delay, callback, arg) => Defer(s, now, delay, callback, arg).0
    case ExtendOp(token, delay) => Extend(s, now, token, delay).0
    case CancelOp(token) => Cancel(s, token).0
    case TaskOp => Task(answers, s, now)
  }

  function DoAll(answers: Answers, s: Sched, ops: seq<(U32, Op)>): Sched {
    if ops == [] then s
    else Do(answers, DoAll(answers, s, ops[..|ops| - 1]), ops[|ops| - 1].0, ops[|ops| - 1].1)
  }

  // ---------------------------------------------------------------- allocation

  /** The `n`th token after `t`, going round. */
  function After(t: Token, n: nat): Token {
    (t + n) % 256
  }

  lemma {:induction false} NextFreeFinds(table: seq<Entry>, t: Token, n: nat)
    ensures var r := NextFree(table, t, n);
      if r == INVALID_TOKEN then forall m :: 1 <= m <= n ==> !CanBeUsed(table, After(t, m))
      else CanBeUsed(table, r) &&
           exists k :: 1 <= k <= n && r == After(t, k) && forall m :: 1 <= m < k ==> !CanBeUsed(table, After(t, m))
    decreases n
  {
    if n > 0 {
      var next := NextToken(t);
      assert next == After(t, 1);
      if !CanBeUsed(table, next) {
        NextFreeFinds(table, next, n - 1);
        assert forall m :: 1 <= m ==> After(next, m) == After(t, m + 1);
        var r := NextFree(table, next, n - 1);
        if r == INVALID_TOKEN {
          forall m | 1 <= m <= n ensures !CanBeUsed(table, After(t, m)) {
            assert m > 1 ==> After(t, m) == After(next, m - 1);
          }
        } else {
          var k :| 1 <= k <= n - 1 && r == After(next, k) &&
                   forall m :: 1 <= m < k ==> !CanBeUsed(table, After(next, m));
          assert r == After(t, k + 1);
          forall m | 1 <= m < k + 1 ensures !CanBeUsed(table, After(t, m)) {
            assert m > 1 ==> After(t, m) == After(next, m - 1);
          }
        }
      }
    }
  }

  lemma EveryTokenIsProbed(current: Token, t: Token)
    ensures exists m :: 1 <= m <= 256 && After(current, m) == t
  {
    var m := if t > current then t - current else t - current + 256;
    assert After(current, m) == t;
  }

  /** Tokens are given out in turn: the first one not live behind the one given out last. */
  lemma TokensInTurn(s: Sched, now: U32, delay: U32, callback: nat, arg: int)
    ensures var (s', token) := Defer(s, now, delay, callback, arg);
      token != INVALID_TOKEN ==>
        && s'.current == token
        && exists k :: 1 <= k <= 256 && token == After(s.current, k) &&
                       forall m :: 1 <= m < k ==> !CanBeUsed(s.table, After(s.current, m))
  {
    NextFreeFinds(s.table, s.current, 256);
  }

  /** The token given out last, even if freed since, is not given out again as long as there is any other. */
  lemma FreedTokenRests(s: Sched, now: U32, delay: U32, callback: nat, arg: int, t: Token)
    requires CanBeUsed(s.table, t) && t != s.current
    ensures var token := Defer(s, now, delay, callback, arg).1; token != INVALID_TOKEN ==> token != s.current
  {
    TokensInTurn(s, now, delay, callback, arg);
    var token := Defer(s, now, delay, callback, arg).1;
    if token == s.current && token != INVALID_TOKEN {
      var k :| 1 <= k <= 256 && token == After(s.current, k) &&
               forall m :: 1 <= m < k ==> !CanBeUsed(s.table, After(s.current, m));
      EveryTokenIsProbed(s.current, t);
    }
  }

  /** Allocation fails only when all 255 tokens are live. */
  lemma AllocateFailsIff(table: seq<Entry>, current: Token)
    ensures Allocate(table, current) == INVALID_TOKEN <==> forall t: Token :: !CanBeUsed(table, t)
    ensures Allocate(table, current) != INVALID_TOKEN ==> CanBeUsed(table, Allocate(table, current))
  {
    NextFreeFinds(table, current, 256);
    if Allocate(table, current) == INVALID_TOKEN {
      forall t: Token ensures !CanBeUsed(table, t) {
        EveryTokenIsProbed(current, t);
      }
    }
  }

  function Tokens(table: seq<Entry>): (ts: set<int>)
    ensures forall t :: t in ts <==> exists i :: 0 <= i < |table| && table[i].token == t
    ensures |ts| <= |table|
  {
    if table == [] then {}
    else
      var ts := Tokens(table[..|table| - 1]);
      assert table == table[..|table| - 1] + [table[|table| - 1]];
      ts + {table[|table| - 1].token}
  }

  function Range(n: nat): (s: set<int>)
    ensures forall t :: t in s <==> 0 <= t < n
    ensures |s| == n
  {
    if n == 0 then {} else Range(n - 1) + {n - 1}
  }

  lemma SubsetSize(a: set<int>, b: set<int>)
    requires a <= b
    ensures |a| <= |b|
  {
    assert b == a + (b - a);
  }

  /** Pigeonhole: a table with a free slot and at most 255 slots leaves some token unused. */
  lemma SmallTableHasToken(table: seq<Entry>)
    requires |table| <= 255 && Find(table, INVALID_TOKEN) < |table|
    ensures exists t: Token :: CanBeUsed(table, t)
  {
    if forall t: Token :: !CanBeUsed(table, t) {
      var i := Find(table, INVALID_TOKEN);
      forall t | t in Range(256) ensures t in Tokens(table) {
        var tok: Token := t;
        assert !CanBeUsed(table, tok);
      }
      SubsetSize(Range(256), Tokens(table));
      assert false;
    }
  }

  /** When a request is granted, for tables of any size. */
  lemma DeferSucceedsIff(s: Sched, now: U32, delay: U32, callback: nat, arg: int)
    ensures Defer(s, now, delay, callback, arg).1 != INVALID_TOKEN <==>
      && delay != 0 && callback != 0
      && (exists i :: 0 <= i < |s.table| && s.table[i].token == INVALID_TOKEN)
      && (exists t: Token :: CanBeUsed(s.table, t))
  {
    AllocateFailsIff(s.table, s.current);
    var i := Find(s.table, INVALID_TOKEN);
  }

  /** Up to 255 slots, a valid request is granted exactly when a slot is free. */
  lemma SmallTableDeferSucceedsIff(s: Sched, now: U32, delay: U32, callback: nat, arg: int)
    requires |s.table| <= 255 && delay != 0 && callback != 0
    ensures Defer(s, now, delay, callback, arg).1 != INVALID_TOKEN <==>
            exists i :: 0 <= i < |s.table| && s.table[i].token == INVALID_TOKEN
  {
    DeferSucceedsIff(s, now, delay, callback, arg);
    if exists i :: 0 <= i < |s.table| && s.table[i].token == INVALID_TOKEN {
      SmallTableHasToken(s.table);
    }
  }

  // ---------------------------------------------------------------- what the operations touch

  /** A granted request fills exactly one slot that was free, under a token nobody else holds. */
  lemma DeferTouchesOneSlot(s: Sched, now: U32, delay: U32, callback: nat, arg: int)
    ensures var (s', token) := Defer(s, now, delay, callback, arg);
      if token == INVALID_TOKEN then s'.table == s.table
      else CanBeUsed(s.table, token) &&
           exists i :: 0 <= i < |s.table| && s.table[i].token == INVALID_TOKEN &&
             s'.table == s.table[i := Entry(token, Plus32(now, delay), callback, arg)]
  {
    AllocateFailsIff(s.table, s.current);
    var i := Find(s.table, INVALID_TOKEN);
  }

  ghost predicate OnlySlot(table: seq<Entry>, i: nat, token: Token) {
    i < |table| && table[i].token == token && forall j :: 0 <= j < |table| && j != i ==> table[j].token != token
  }

  /** Cancelling a live token frees the one slot it names; any other token changes nothing. */
  lemma CancelTouchesOneSlot(s: Sched, token: Token)
    requires Distinct(s.table) && token != INVALID_TOKEN
    ensures var (s', found) := Cancel(s, token);
      if found then exists i: nat :: OnlySlot(s.table, i, token) && s'.table == s.table[i := FREE_ENTRY]
      else s' == s && CanBeUsed(s.table, token)
    ensures CanBeUsed(Cancel(s, token).0.table, token)
  {
    var i := Find(s.table, token);
    if i < |s.table| {
      assert OnlySlot(s.table, i, token);
    }
  }

  /** Extending a live token moves the trigger of the one slot it names, and nothing else. */
  lemma ExtendTouchesOneSlot(s: Sched, now: U32, token: Token, delay: U32)
    requires Distinct(s.table) && token != INVALID_TOKEN && delay != 0
    ensures var (s', found) := Extend(s, now, token, delay);
      if found then exists i: nat :: OnlySlot(s.table, i, token) &&
                      s'.table == s.table[i := s.table[i].(trigger := Plus32(now, delay))]
      else s' == s && CanBeUsed(s.table, token)
  {
    var i := Find(s.table, token);
    if i < |s.table| {
      assert OnlySlot(s.table, i, token);
    }
  }

  // ---------------------------------------------------------------- distinct tokens on every run

  lemma {:induction false} VisitsKeepDistinct(answers: Answers, s: Sched, now: U32, n: nat)
    requires n <= |s.table| && Distinct(s.table)
    ensures Distinct(VisitBelow(answers, s, now, n).table)
  {
    if n > 0 {
      VisitsKeepDistinct(answers, s, now, n - 1);
    }
  }

  lemma DoKeepsDistinct(answers: Answers, s: Sched, now: U32, op: Op)
    requires Distinct(s.table)
    ensures Distinct(Do(answers, s, now, op).table)
  {
    match op
    case DeferOp(delay, callback, arg) => DeferTouchesOneSlot(s, now, delay, callback, arg);
    case ExtendOp(token, delay) =>
    case CancelOp(token) =>
    case TaskOp => VisitsKeepDistinct(answers, s.(last := now), now, |s.table|);
  }

  /** Across any sequence of requests, extensions, cancellations and passes, live tokens stay distinct. */
  lemma {:induction false} TokensStayDistinct(answers: Answers, s: Sched, ops: seq<(U32, Op)>)
    requires Distinct(s.table)
    ensures Distinct(DoAll(answers, s, ops).table)
  {
    if ops != [] {
      TokensStayDistinct(answers, s, ops[..|ops| - 1]);
      DoKeepsDistinct(answers, DoAll(answers, s, ops[..|ops| - 1]), ops[|ops| - 1].0, ops[|ops| - 1].1);
    }
  }
}
