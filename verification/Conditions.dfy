/** Status conditions: a list that holds at most one condition of each type. */
module Conditions {
  import opened Base

  datatype Condition = Condition(kind: string, status: bool, reason: string)

  /** Replaces the condition of that type, or appends it. */
  function Set(cs: seq<Condition>, c: Condition): seq<Condition> {
    if cs == [] then [c]
    else if cs[0].kind == c.kind then [c] + cs[1..]
    else [cs[0]] + Set(cs[1..], c)
  }

  /** The first condition of a type. */
  function Lookup(cs: seq<Condition>, kind: string): Option<Condition> {
    if cs == [] then None else if cs[0].kind == kind then Some(cs[0]) else Lookup(cs[1..], kind)
  }

  ghost predicate Unique(cs: seq<Condition>) {
    forall i, j :: 0 <= i < j < |cs| ==> cs[i].kind != cs[j].kind
  }

  lemma {:induction false} SetLookup(cs: seq<Condition>, c: Condition, kind: string)
    ensures Lookup(Set(cs, c), kind) == if kind == c.kind then Some(c) else Lookup(cs, kind)
  {
    if cs == [] {
      assert Set(cs, c)[1..] == [];
    } else {
      assert ([c] + cs[1..])[1..] == cs[1..];
      assert ([cs[0]] + Set(cs[1..], c))[1..] == Set(cs[1..], c);
      SetLookup(cs[1..], c, kind);
    }
  }

  lemma {:induction false} SetUnique(cs: seq<Condition>, c: Condition)
    requires Unique(cs)
    ensures Unique(Set(cs, c))
    ensures forall x :: x in Set(cs, c) ==> x == c || x in cs
  {
    if cs != [] && cs[0].kind != c.kind {
      SetUnique(cs[1..], c);
      var rest := Set(cs[1..], c);
      forall j | 0 <= j < |rest| ensures rest[j].kind != cs[0].kind {
        assert rest[j] in rest;
        if rest[j] != c {
          var i :| 0 <= i < |cs[1..]| && cs[1..][i] == rest[j];
          assert cs[i + 1] == rest[j];
        }
      }
    }
  }

  /** The conditions whose type `keep` accepts, in order. */
  function Filter(cs: seq<Condition>, keep: string -> bool): seq<Condition> {
    if cs == [] then []
    else Filter(cs[..|cs| - 1], keep) + if keep(cs[|cs| - 1].kind) then [cs[|cs| - 1]] else []
  }

  lemma {:induction false} LookupSnoc(cs: seq<Condition>, c: Condition, kind: string)
    ensures Lookup(cs + [c], kind) ==
            if Lookup(cs, kind).Some? then Lookup(cs, kind) else if c.kind == kind then Some(c) else None
  {
    if cs != [] {
      assert (cs + [c])[1..] == cs[1..] + [c];
      LookupSnoc(cs[1..], c, kind);
    } else {
      assert Lookup([c][1..], kind) == None;
    }
  }

  /** Filtering keeps or drops each type as a whole. */
  lemma {:induction false} FilterLookup(cs: seq<Condition>, keep: string -> bool, kind: string)
    ensures Lookup(Filter(cs, keep), kind) == if keep(kind) then Lookup(cs, kind) else None
  {
    if cs != [] {
      var init, last := cs[..|cs| - 1], cs[|cs| - 1];
      assert cs == init + [last];
      FilterLookup(init, keep, kind);
      LookupSnoc(init, last, kind);
      LookupSnoc(Filter(init, keep), last, kind);
      assert Filter(init, keep) + [] == Filter(init, keep);
    }
  }

  lemma {:induction false} FilterUnique(cs: seq<Condition>, keep: string -> bool)
    ensures forall c :: c in Filter(cs, keep) ==> c in cs
    ensures Unique(cs) ==> Unique(Filter(cs, keep))
  {
    if cs != [] {
      var init, last := cs[..|cs| - 1], cs[|cs| - 1];
      assert cs == init + [last];
      FilterUnique(init, keep);
      var kept := Filter(init, keep);
      if Unique(cs) {
        forall i | 0 <= i < |kept| ensures kept[i].kind != last.kind {
          assert kept[i] in kept;
          var j :| 0 <= j < |init| && init[j] == kept[i];
          assert cs[j] == init[j];
        }
      }
    }
  }

  /** Removes the conditions of a type. */
  function Remove(cs: seq<Condition>, kind: string): seq<Condition> {
    Filter(cs, k => k != kind)
  }

  const PREFIX := "Action-"

  function ForAction(action: string): string {
    PREFIX + action
  }

  const READY := "Ready"

  predicate IsForAction(kind: string) {
    PREFIX <= kind
  }

  function ActionOf(kind: string): (action: string)
    requires IsForAction(kind)
    ensures ForAction(action) == kind
  {
    kind[|PREFIX|..]
  }

  lemma ForActionInjective(a: string, b: string)
    ensures ForAction(a) == ForAction(b) ==> a == b
    ensures IsForAction(ForAction(a)) && ActionOf(ForAction(a)) == a
  {
    assert ForAction(a)[|PREFIX|..] == a && ForAction(b)[|PREFIX|..] == b;
  }
}
