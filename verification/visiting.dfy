/** The builder's child-visiting protocol: `visitChildren` walks a node's
    children in order, `shouldVisitNextChild` skips terminal tokens, and
    `aggregateResult` keeps the latest non-null result. */
module Visiting {
  import opened Common

  /** A child of a parse node: a terminal token, or a rule context with its
      number of children, its empty and error flags, and what visiting it
      yields. */
  datatype Child<T> = Terminal | Rule(childCount: nat, isEmpty: bool, errored: bool, result: Visit<T>)

  /** `shouldVisitNextChild`: terminals are skipped; a rule context is
      visited when it has children, is empty, or carries an exception. */
  predicate ShouldVisit<T>(c: Child<T>)
  {
    c.Rule? && (c.childCount > 0 || c.isEmpty || c.errored)
  }

  /** `aggregateResult`: a null next result keeps the running one. */
  function Aggregate<T>(result: Visit<T>, next: Visit<T>): Visit<T>
  {
    if !result.Null? && next.Null? then result else next
  }

  /** What `visitChildren` returns after the children `cs`; a fault in a
      child ends the walk. */
  function Fold<T>(cs: seq<Child<T>>): Visit<T>
  {
    if cs == [] then Null
    else
      var acc := Fold(cs[..|cs| - 1]);
      var c := cs[|cs| - 1];
      if acc.Fault? || !ShouldVisit(c) then acc else Aggregate(acc, c.result)
  }

  /** `visitChildren`: the loop over the children threading `result`. */
  method VisitChildren<T>(cs: seq<Child<T>>) returns (result: Visit<T>)
    ensures result == Fold(cs)
  {
    result := Null;
    var i := 0;
    while i < |cs|
      invariant 0 <= i <= |cs|
      invariant result == Fold(cs[..i])
      invariant !result.Fault?
    {
      assert cs[..i + 1][..i] == cs[..i];
      var child := cs[i];
      if ShouldVisit(child) {
        if child.result.Fault? {
          result := child.result;
          FaultIsFinal(cs, i + 1);
          return;
        }
        result := Aggregate(result, child.result);
      }
      i := i + 1;
    }
    assert cs[..i] == cs;
  }

  /** Once a child has faulted, later children do not change the outcome. */
  lemma {:induction false} FaultIsFinal<T>(cs: seq<Child<T>>, k: nat)
    requires k <= |cs| && Fold(cs[..k]).Fault?
    ensures Fold(cs) == Fold(cs[..k])
    decreases |cs| - k
  {
    if k == |cs| {
      assert cs[..k] == cs;
    } else {
      assert cs[..k + 1][..k] == cs[..k];
      FaultIsFinal(cs, k + 1);
    }
  }

  /** The walk yields null exactly when every visited child yielded null. */
  lemma {:induction false} NullWhenAllNull<T>(cs: seq<Child<T>>)
    ensures Fold(cs).Null? <==> forall i :: 0 <= i < |cs| && ShouldVisit(cs[i]) ==> cs[i].result.Null?
  {
    if cs != [] {
      var init := cs[..|cs| - 1];
      NullWhenAllNull(init);
      assert forall i :: 0 <= i < |init| ==> init[i] == cs[i];
    }
  }

  /** A built result is the result of the last visited child that was not
      null, and no fault came before it. */
  lemma {:induction false} BuiltIsLastNonNull<T>(cs: seq<Child<T>>, x: T)
    requires Fold(cs) == Built(x)
    ensures exists i :: 0 <= i < |cs| && ShouldVisit(cs[i]) && cs[i].result == Built(x) &&
                        forall j :: i < j < |cs| && ShouldVisit(cs[j]) ==> cs[j].result.Null?
  {
    var init := cs[..|cs| - 1];
    var c := cs[|cs| - 1];
    assert forall i :: 0 <= i < |init| ==> init[i] == cs[i];
    if ShouldVisit(c) && c.result == Built(x) {
      assert 0 <= |cs| - 1 < |cs| && ShouldVisit(cs[|cs| - 1]) && cs[|cs| - 1].result == Built(x);
    } else {
      assert Fold(init) == Built(x);
      BuiltIsLastNonNull(init, x);
      var i :| 0 <= i < |init| && ShouldVisit(init[i]) && init[i].result == Built(x) &&
               forall j :: i < j < |init| && ShouldVisit(init[j]) ==> init[j].result.Null?;
      assert ShouldVisit(cs[i]) && cs[i].result == Built(x);
    }
  }
}
