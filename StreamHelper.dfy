/** The helper types of the stream library: the branches and the builder of a
    multi-way conditional (ChainedCondition), the two value containers that
    grouping fills (ListType, SetType), and the Supplier source. */
module StreamHelper {
  import opened Common

  /** The predicate of the fallback branch that `otherwise` appends. */
  function AlwaysTrue<T>(e: T): bool { true }

  /** One (predicate, transform) branch of a ChainedCondition. */
  datatype Branch<!T> = Branch(cond: T -> bool, func: T -> T) {

    /** The branch's transform of `e` when its predicate holds, EMPTY otherwise. */
    function Apply(e: T): (r: Optional<T>)
      ensures r.Of? <==> cond(e)
      ensures r.Of? ==> r.value == func(e)
    {
      if cond(e) then Of(func(e)) else Empty
    }
  }

  /** First-match-wins dispatch: the transform of the first branch, in
      insertion order, whose predicate holds; `e` itself if none holds. */
  function Dispatch<T>(bs: seq<Branch<T>>, e: T): (r: T)
    ensures r == e || exists i :: 0 <= i < |bs| && bs[i].cond(e) && r == bs[i].func(e)
  {
    if bs == [] then e
    else match bs[0].Apply(e)
      case Of(y) => y
      case Empty =>
        var r := Dispatch(bs[1..], e);
        assert forall i :: 0 <= i < |bs| - 1 ==> bs[1..][i] == bs[i + 1];
        r
  }

  /** Some branch of `bs` accepts `e`. */
  ghost predicate AnyMatch<T>(bs: seq<Branch<T>>, e: T)
  {
    exists j :: 0 <= j < |bs| && bs[j].cond(e)
  }

  /** Branch `i` is the first branch of `bs` that accepts `e`. */
  ghost predicate IsFirstMatch<T>(bs: seq<Branch<T>>, e: T, i: int)
  {
    && 0 <= i < |bs|
    && bs[i].cond(e)
    && forall j :: 0 <= j < i ==> !bs[j].cond(e)
  }

  /** The first accepting branch decides the result. */
  lemma {:induction false} DispatchFirstMatch<T>(bs: seq<Branch<T>>, e: T, i: int)
    requires IsFirstMatch(bs, e, i)
    ensures Dispatch(bs, e) == bs[i].func(e)
  {
    if i > 0 {
      assert !bs[0].cond(e);
      assert IsFirstMatch(bs[1..], e, i - 1) by {
        forall j | 0 <= j < i - 1 ensures !bs[1..][j].cond(e) {
          assert bs[1..][j] == bs[j + 1];
        }
      }
      DispatchFirstMatch(bs[1..], e, i - 1);
    }
  }

  /** With no accepting branch the element passes through unchanged. */
  lemma {:induction false} DispatchNoMatch<T>(bs: seq<Branch<T>>, e: T)
    requires !AnyMatch(bs, e)
    ensures Dispatch(bs, e) == e
  {
    if bs != [] {
      assert !bs[0].cond(e);
      assert !AnyMatch(bs[1..], e) by {
        forall j | 0 <= j < |bs| - 1 ensures !bs[1..][j].cond(e) {
          assert bs[1..][j] == bs[j + 1];
        }
      }
      DispatchNoMatch(bs[1..], e);
    }
  }

  /** Branches appended after an accepting branch are never consulted; when
      no earlier branch accepts, the appended branches alone decide. */
  lemma {:induction false} DispatchAppend<T>(bs: seq<Branch<T>>, more: seq<Branch<T>>, e: T)
    ensures AnyMatch(bs, e) ==> Dispatch(bs + more, e) == Dispatch(bs, e)
    ensures !AnyMatch(bs, e) ==> Dispatch(bs + more, e) == Dispatch(more, e)
  {
    if bs == [] {
      assert bs + more == more;
    } else {
      assert (bs + more)[0] == bs[0];
      assert (bs + more)[1..] == bs[1..] + more;
      if !bs[0].cond(e) {
        assert AnyMatch(bs, e) <==> AnyMatch(bs[1..], e) by {
          if AnyMatch(bs, e) {
            var j :| 0 <= j < |bs| && bs[j].cond(e);
            assert bs[1..][j - 1] == bs[j];
          }
          if AnyMatch(bs[1..], e) {
            var j :| 0 <= j < |bs[1..]| && bs[1..][j].cond(e);
            assert bs[j + 1] == bs[1..][j];
          }
        }
        DispatchAppend(bs[1..], more, e);
      }
    }
  }

  /** The two-branch condition built by `if_else` chooses by its predicate. */
  lemma IfElseDispatch<T>(cond: T -> bool, ifFunc: T -> T, elseFunc: T -> T, e: T)
    ensures Dispatch([Branch(cond, ifFunc), Branch(AlwaysTrue, elseFunc)], e)
            == if cond(e) then ifFunc(e) else elseFunc(e)
  {
    var bs := [Branch(cond, ifFunc), Branch(AlwaysTrue, elseFunc)];
    if !cond(e) {
      assert bs[1..] == [Branch(AlwaysTrue, elseFunc)];
      assert bs[1..][1..] == [];
    }
  }

  /** Decimal rendering of a natural number, as Python's `format` writes it. */
  function NatToString(n: nat): (r: string)
    ensures |r| >= 1
    ensures forall k :: 0 <= k < |r| ==> '0' <= r[k] <= '9'
  {
    if n < 10 then [DigitChar(n)] else NatToString(n / 10) + [DigitChar(n % 10)]
  }

  function DigitChar(d: nat): (c: char)
    requires d < 10
    ensures '0' <= c <= '9' && c as int - '0' as int == d
  {
    (d + '0' as int) as char
  }

  /** The number a string of decimal digits denotes. */
  function DigitsValue(s: string): nat
    requires forall k :: 0 <= k < |s| ==> '0' <= s[k] <= '9'
  {
    if s == [] then 0
    else DigitsValue(s[..|s| - 1]) * 10 + (s[|s| - 1] as int - '0' as int)
  }

  /** Rendering a count and reading it back gives the count. */
  lemma {:induction false} NatToStringRoundTrip(n: nat)
    ensures DigitsValue(NatToString(n)) == n
  {
    var r := NatToString(n);
    if n >= 10 {
      NatToStringRoundTrip(n / 10);
      assert r[..|r| - 1] == NatToString(n / 10);
    } else {
      assert r[..|r| - 1] == [];
    }
  }

  const NoConditionText := "ChainedCondition has not defined any condition"
  const IfText := "ChainedCondition defines 'if' condition"

  /** The informational name of a condition with `size` branches. */
  function DefaultNameOf(size: nat, elseCalled: bool): (r: string)
    ensures r == NoConditionText <==> size == 0
    ensures r == IfText <==> size == 1
  {
    if size == 0 then NoConditionText
    else if size == 1 then IfText
    else if elseCalled then
      if size == 2 then "ChainedCondition defines 'if' and 'else' condition"
      else "ChainedCondition defines 'if' then " + NatToString(size - 2)
           + " elif condition" + (if size > 3 then "s" else "") + " and 'else' condition"
    else
      "ChainedCondition defines 'if' then " + NatToString(size - 1)
      + " elif condition" + (if size > 2 then "s" else "")
  }

  /** A multi-way conditional: branches are appended while it is open, and it
      may only be applied once it has been closed by `otherwise` or `done`. */
  class ChainedCondition<T> {
    var conditions: seq<Branch<T>>
    var closed: bool
    const name: Optional<string>
    var elseCalled: bool

    /** A fresh condition is open and has no branch. */
    constructor (name: Optional<string>)
      ensures conditions == [] && !closed && !elseCalled
      ensures this.name == name
    {
      conditions := [];
      closed := false;
      this.name := name;
      elseCalled := false;
    }

    /** Appends one branch; refused once the condition is closed. */
    method IfThen(cond: T -> bool, func: T -> T) returns (r: Result<ChainedCondition<T>>)
      modifies this`conditions
      ensures old(closed) ==> r == Err(PipelineAlreadyClosed) && conditions == old(conditions)
      ensures !old(closed) ==> r == Ok(this) && conditions == old(conditions) + [Branch(cond, func)]
    {
      if closed {
        return Err(PipelineAlreadyClosed);
      }
      conditions := conditions + [Branch(cond, func)];
      r := Ok(this);
    }

    /** Appends an always-true fallback branch and closes the condition;
        refused when closed, and when no 'if' branch has been added. */
    method Otherwise(func: T -> T) returns (r: Result<ChainedCondition<T>>)
      modifies this`conditions, this`closed
      ensures old(closed) ==> r == Err(PipelineAlreadyClosed) && conditions == old(conditions) && closed
      ensures !old(closed) && old(conditions) == [] ==>
                r == Err(AttributeError) && conditions == [] && !closed
      ensures !old(closed) && old(conditions) != [] ==>
                && r == Ok(this) && closed
                && conditions == old(conditions) + [Branch(AlwaysTrue, func)]
    {
      if closed {
        return Err(PipelineAlreadyClosed);
      }
      if conditions == [] {
        return Err(AttributeError);
      }
      r := IfThen(AlwaysTrue, func);
      closed := true;
    }

    /** Otherwise as its `_else_called` flag evidently intends: the same
        branch and closing, and the flag records that a fallback exists. */
    method OtherwiseMarkingElse(func: T -> T) returns (r: Result<ChainedCondition<T>>)
      modifies this`conditions, this`closed, this`elseCalled
      ensures old(closed) ==> r == Err(PipelineAlreadyClosed) && unchanged(this)
      ensures !old(closed) && old(conditions) == [] ==> r == Err(AttributeError) && unchanged(this)
      ensures !old(closed) && old(conditions) != [] ==>
                && r == Ok(this) && closed && elseCalled
                && conditions == old(conditions) + [Branch(AlwaysTrue, func)]
    {
      r := Otherwise(func);
      if r.Ok? {
        elseCalled := true;
      }
    }

    /** Closes the condition without a fallback branch. */
    method Done() returns (r: Result<ChainedCondition<T>>)
      modifies this`closed
      ensures closed
      ensures r == if old(closed) then Err(PipelineAlreadyClosed) else Ok(this)
    {
      if closed {
        return Err(PipelineAlreadyClosed);
      }
      closed := true;
      r := Ok(this);
    }

    /** Transforms `e` by the first accepting branch, or returns it unchanged;
        refused while the condition is open. Changes nothing, so a closed
        condition can be applied any number of times. */
    method Apply(e: T) returns (r: Result<T>)
      ensures r == if closed then Ok(Dispatch(conditions, e)) else Err(PipelineNotClosed)
    {
      if !closed {
        return Err(PipelineNotClosed);
      }
      var i := 0;
      while i < |conditions|
        invariant 0 <= i <= |conditions|
        invariant Dispatch(conditions[i..], e) == Dispatch(conditions, e)
      {
        assert conditions[i..][1..] == conditions[i + 1..];
        var y := conditions[i].Apply(e);
        if y.Of? {
          return Ok(y.value);
        }
        i := i + 1;
      }
      r := Ok(e);
    }

    /** `ChainedCondition().if_then(cond, ifFunc).otherwise(elseFunc)`. */
    static method IfElse(cond: T -> bool, ifFunc: T -> T, elseFunc: T -> T) returns (c: ChainedCondition<T>)
      ensures fresh(c) && c.closed && !c.elseCalled && c.name == Empty
      ensures c.conditions == [Branch(cond, ifFunc), Branch(AlwaysTrue, elseFunc)]
    {
      c := new ChainedCondition(Empty);
      var r1 := c.IfThen(cond, ifFunc);
      var r2 := c.Otherwise(elseFunc);
    }

    /** The informational name used when none was given. */
    function DefaultName(): (r: string)
      reads this
      ensures r == NoConditionText <==> |conditions| == 0
      ensures r == IfText <==> |conditions| == 1
    {
      DefaultNameOf(|conditions|, elseCalled)
    }
  }

  /** The names of a two-branch condition, without and with the 'else' flag. */
  lemma DefaultNameTwoBranches()
    ensures DefaultNameOf(2, false) == "ChainedCondition defines 'if' then 1 elif condition"
    ensures DefaultNameOf(2, true) == "ChainedCondition defines 'if' and 'else' condition"
  {
    assert NatToString(1) == "1";
  }

  /** The name an `if_else` condition reports as the code is written: the
      fallback is counted as an 'elif', because `otherwise` never sets the
      flag that `default_name` consults. */
  method IfElseNameAsWritten<T>(cond: T -> bool, ifFunc: T -> T, elseFunc: T -> T) returns (n: string)
    ensures n == "ChainedCondition defines 'if' then 1 elif condition"
  {
    var c := ChainedCondition.IfElse(cond, ifFunc, elseFunc);
    n := c.DefaultName();
    DefaultNameTwoBranches();
  }

  /** The same condition built with the flag-setting `otherwise` reports its
      'else' branch. */
  method IfElseNameIntended<T>(cond: T -> bool, ifFunc: T -> T, elseFunc: T -> T) returns (n: string)
    ensures n == "ChainedCondition defines 'if' and 'else' condition"
  {
    var c := new ChainedCondition(Empty);
    var r1 := c.IfThen(cond, ifFunc);
    var r2 := c.OtherwiseMarkingElse(elseFunc);
    n := c.DefaultName();
    DefaultNameTwoBranches();
  }

  /** A container for grouped values that keeps add order and duplicates. */
  class ListType<V> {
    var items: seq<V>

    constructor ()
      ensures items == []
    {
      items := [];
    }

    method Add(o: V)
      modifies this
      ensures items == old(items) + [o]
    {
      items := items + [o];
    }
  }

  /** A container for grouped values with set semantics. */
  class SetType<V(==)> {
    var items: set<V>

    constructor ()
      ensures items == {}
    {
      items := {};
    }

    method Add(o: V)
      modifies this
      ensures items == old(items) + {o}
      ensures o in old(items) ==> items == old(items)
    {
      items := items + {o};
    }
  }

  /** An endless source wrapping a zero-argument producer. The producer's
      side effects are made explicit: `produce(k)` is what its k-th call
      returns. */
  class Supplier<T> {
    const produce: nat -> T
    var calls: nat

    constructor (produce: nat -> T)
      ensures this.produce == produce && calls == 0
    {
      this.produce := produce;
      calls := 0;
    }

    /** One pull: calls the producer once. */
    method Next() returns (x: T)
      modifies this`calls
      ensures x == produce(old(calls)) && calls == old(calls) + 1
    {
      x := produce(calls);
      calls := calls + 1;
    }

    /** The first `n` pulls of the endless iteration (`limit(n)` on it). */
    method Take(n: nat) returns (xs: seq<T>)
      modifies this`calls
      ensures |xs| == n && calls == old(calls) + n
      ensures forall i :: 0 <= i < n ==> xs[i] == produce(old(calls) + i)
    {
      xs := [];
      while |xs| < n
        invariant |xs| <= n && calls == old(calls) + |xs|
        invariant forall i :: 0 <= i < |xs| ==> xs[i] == produce(old(calls) + i)
      {
        var x := Next();
        xs := xs + [x];
      }
    }
  }
}
