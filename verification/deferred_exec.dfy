/**
 The deferred executor of `quantum/deferred_exec.c`: a table of timers, tokens that name them,
 and a pass that calls what is due. Times here are the 32-bit words the code works with.
 */
module DeferredExec {

  const WORD: int := 0x1_0000_0000
  const HALF: int := 0x8000_0000

  type U32 = t: int | 0 <= t < 0x1_0000_0000

  /** `deferred_token` is a uint8_t; 0 is INVALID_DEFERRED_TOKEN. */
  type Token = t: int | 0 <= t < 256

  const INVALID_TOKEN: Token := 0

  /** `callback` and `arg` stand for the function and its argument; callback 0 is NULL. */
  datatype Entry = Entry(token: Token, trigger: U32, callback: nat, arg: int)

  const FREE_ENTRY := Entry(INVALID_TOKEN, 0, 0, 0)

  /** One invocation of a callback, with the arguments it got. */
  datatype Call = Call(token: Token, trigger: U32, callback: nat, arg: int)

  datatype Sched = Sched(table: seq<Entry>, calls: seq<Call>, current: Token, last: U32)

  /** What callbacks return may depend on everything that was called before. They leave the table alone. */
  type Answers = (seq<Call>, Call) -> U32

  function Diff32(a: U32, b: U32): U32 {
    (a - b) % WORD
  }

  function Signed32(x: U32): int {
    if x < HALF then x else x - WORD
  }

  function Plus32(a: U32, b: U32): U32 {
    (a + b) % WORD
  }

  // ---------------------------------------------------------------- tokens

  function NextToken(t: Token): (n: Token)
    ensures n == if t == 255 then 0 else t + 1
  {
    (t + 1) % 256
  }

  predicate CanBeUsed(table: seq<Entry>, token: Token) {
    token != INVALID_TOKEN && forall i :: 0 <= i < |table| ==> table[i].token != token
  }

  /** The first usable one of the `n` tokens that follow `t`, going round. */
  function NextFree(table: seq<Entry>, t: Token, n: nat): Token
    decreases n
  {
    if n == 0 then INVALID_TOKEN
    else if CanBeUsed(table, NextToken(t)) then NextToken(t)
    else NextFree(table, NextToken(t), n - 1)
  }

  function Allocate(table: seq<Entry>, current: Token): Token {
    NextFree(table, current, 256)
  }

  /** Index of the first entry with this token, or the table size. */
  function Find(table: seq<Entry>, token: Token): (i: nat)
    ensures i <= |table|
    ensures i < |table| ==> table[i].token == token
    ensures forall j :: 0 <= j < i ==> table[j].token != token
  {
    if table == [] || table[0].token == token then 0 else 1 + Find(table[1..], token)
  }

  // ---------------------------------------------------------------- the operations

  function Defer(s: Sched, now: U32, delay: U32, callback: nat, arg: int): (Sched, Token) {
    var i := Find(s.table, INVALID_TOKEN);
    if delay == 0 || callback == 0 || i == |s.table| then (s, INVALID_TOKEN)
    else
      var token := Allocate(s.table, s.current);
      if token == INVALID_TOKEN then (s.(current := NextToken(s.current)), INVALID_TOKEN)
      else (s.(current := token, table := s.table[i := Entry(token, Plus32(now, delay), callback, arg)]), token)
  }

  function Extend(s: Sched, now: U32, token: Token, delay: U32): (Sched, bool) {
    var i := Find(s.table, token);
    if delay == 0 || token == INVALID_TOKEN || i == |s.table| then (s, false)
    else (s.(table := s.table[i := s.table[i].(trigger := Plus32(now, delay))]), true)
  }

  function Cancel(s: Sched, token: Token): (Sched, bool) {
    var i := Find(s.table, token);
    if token == INVALID_TOKEN || i == |s.table| then (s, false)
    else (s.(table := s.table[i := FREE_ENTRY]), true)
  }

  predicate IsDue(e: Entry, now: U32) {
    e.token != INVALID_TOKEN && Signed32(Diff32(e.trigger, now)) <= 0
  }

  /** The loop body for entry `i`. */
  function Visit(answers: Answers, s: Sched, now: U32, i: nat): (s': Sched)
    requires i < |s.table|
    ensures |s'.table| == |s.table|
  {
    var e := s.table[i];
    if IsDue(e, now) then
      var call := Call(e.token, e.trigger, e.callback, e.arg);
      var delay := answers(s.calls, call);
      s.(calls := s.calls + [call],
         table := s.table[i := if delay > 0 then e.(trigger := Plus32(e.trigger, delay)) else FREE_ENTRY])
    else s
  }

  function VisitBelow(answers: Answers, s: Sched, now: U32, n: nat): (s': Sched)
    requires n <= |s.table|
    ensures |s'.table| == |s.table|
  {
    if n == 0 then s else Visit(answers, VisitBelow(answers, s, now, n - 1), now, n - 1)
  }

  predicate IsEffective(s: Sched, now: U32) {
    Signed32(Diff32(now, s.last)) > 0
  }

  function Task(answers: Answers, s: Sched, now: U32): Sched {
    if IsEffective(s, now) then VisitBelow(answers, s.(last := now), now, |s.table|) else s
  }

  // ---------------------------------------------------------------- the table as the firmware keeps it

  class Executor {
    const table: array<Entry>
    const answers: Answers
    var currentToken: Token
    var lastExecutionTime: U32
    var calls: seq<Call>

    ghost function Abs(): Sched
      reads this, table
    {
      Sched(table[..], calls, currentToken, lastExecutionTime)
    }

    constructor (tableCount: nat, answers: Answers)
      ensures fresh(table) && this.answers == answers
      ensures Abs() == Sched(seq(tableCount, _ => FREE_ENTRY), [], 0, 0)
    {
      table := new Entry[tableCount](_ => FREE_ENTRY);
      this.answers := answers;
      currentToken, lastExecutionTime, calls := 0, 0, [];
    }

    method TokenCanBeUsed(token: Token) returns (usable: bool)
      ensures usable == CanBeUsed(table[..], token)
    {
      if token == INVALID_TOKEN {
        return false;
      }
      for i := 0 to table.Length
        invariant forall j :: 0 <= j < i ==> table[j].token != token
      {
        if table[i].token == token {
          assert table[..][i].token == token;
          return false;
        }
      }
      return true;
    }

    /** At most 256 tokens are probed: the loop gives up when it is back at the first one. */
    method AllocateToken() returns (token: Token)
      modifies `currentToken
      ensures token == Allocate(table[..], old(currentToken))
      ensures currentToken == if token == INVALID_TOKEN then NextToken(old(currentToken)) else token
    {
      ghost var start := currentToken;
      currentToken := NextToken(currentToken);
      var first: int := currentToken;
      ghost var left := 255;
      var usable := TokenCanBeUsed(currentToken);
      while !usable
        invariant 0 <= left <= 255
        invariant currentToken == if first + 255 - left < 256 then first + 255 - left else first - 1 - left
        invariant usable == CanBeUsed(table[..], currentToken)
        invariant Allocate(table[..], start) == if usable then currentToken else NextFree(table[..], currentToken, left)
        decreases left, !usable
      {
        currentToken := NextToken(currentToken);
        if currentToken == first {
          return INVALID_TOKEN;
        }
        left := left - 1;
        usable := TokenCanBeUsed(currentToken);
      }
      return currentToken;
    }

    method DeferExec(now: U32, delay: U32, callback: nat, arg: int) returns (token: Token)
      modifies this, table
      ensures (Abs(), token) == Defer(old(Abs()), now, delay, callback, arg)
    {
      if delay == 0 || callback == 0 {
        return INVALID_TOKEN;
      }
      ghost var s := Abs();
      for i := 0 to table.Length
        invariant Abs() == s
        invariant forall j :: 0 <= j < i ==> s.table[j].token != INVALID_TOKEN
      {
        if table[i].token == INVALID_TOKEN {
          assert i == Find(s.table, INVALID_TOKEN);
          token := AllocateToken();
          if token == INVALID_TOKEN {
            return INVALID_TOKEN;
          }
          table[i] := Entry(currentToken, Plus32(now, delay), callback, arg);
          return currentToken;
        }
      }
      return INVALID_TOKEN;
    }

    method ExtendDeferredExec(now: U32, token: Token, delay: U32) returns (found: bool)
      modifies table
      ensures (Abs(), found) == Extend(old(Abs()), now, token, delay)
    {
      if delay == 0 || token == INVALID_TOKEN {
        return false;
      }
      ghost var s := Abs();
      for i := 0 to table.Length
        invariant Abs() == s
        invariant forall j :: 0 <= j < i ==> s.table[j].token != token
      {
        if table[i].token == token {
          assert i == Find(s.table, token);
          table[i] := table[i].(trigger := Plus32(now, delay));
          return true;
        }
      }
      return false;
    }

    method CancelDeferredExec(token: Token) returns (found: bool)
      modifies table
      ensures (Abs(), found) == Cancel(old(Abs()), token)
    {
      if token == INVALID_TOKEN {
        return false;
      }
      ghost var s := Abs();
      for i := 0 to table.Length
        invariant Abs() == s
        invariant forall j :: 0 <= j < i ==> s.table[j].token != token
      {
        if table[i].token == token {
          assert i == Find(s.table, token);
          table[i] := FREE_ENTRY;
          return true;
        }
      }
      return false;
    }

    method DeferredExecTask(now: U32)
      modifies this, table
      ensures Abs() == Task(answers, old(Abs()), now)
    {
      if Signed32(Diff32(now, lastExecutionTime)) > 0 {
        lastExecutionTime := now;
        ghost var s := Abs();
        for i := 0 to table.Length
          invariant Abs() == VisitBelow(answers, s, now, i)
        {
          var entry := table[i];
          if entry.token != INVALID_TOKEN && Signed32(Diff32(entry.trigger, now)) <= 0 {
            var call := Call(entry.token, entry.trigger, entry.callback, entry.arg);
            var delay := answers(calls, call);
            calls := calls + [call];
            if delay > 0 {
              table[i] := entry.(trigger := Plus32(entry.trigger, delay));
            } else {
              table[i] := FREE_ENTRY;
            }
          }
        }
      }
    }
  }
}
