/** Small shared vocabulary: optional values, counting over sequences and what a list names. */
module Base {

  datatype Option<+T> = None | Some(value: T)

  /** The number of elements of `s` that satisfy `p`. */
  ghost function Count<T>(p: T -> bool, s: seq<T>): nat {
    if s == [] then 0 else Count(p, s[..|s| - 1]) + if p(s[|s| - 1]) then 1 else 0
  }

  lemma {:induction false} CountConcat<T>(p: T -> bool, s: seq<T>, t: seq<T>)
    ensures Count(p, s + t) == Count(p, s) + Count(p, t)
  {
    if t == [] {
      assert s + t == s;
    } else {
      assert (s + t)[..|s + t| - 1] == s + t[..|t| - 1];
      CountConcat(p, s, t[..|t| - 1]);
    }
  }

  lemma {:induction false} CountZero<T>(p: T -> bool, s: seq<T>)
    ensures Count(p, s) == 0 <==> forall x :: x in s ==> !p(x)
  {
    if s != [] {
      CountZero(p, s[..|s| - 1]);
      assert s == s[..|s| - 1] + [s[|s| - 1]];
    }
  }

  /** The ids stand in a list at the positions `at`, one after the other, and nothing else in it has a name. */
  ghost predicate Standing(ids: seq<string>, named: seq<Option<string>>, at: seq<nat>) {
    && |at| == |ids|
    && (forall i, j :: 0 <= i < j < |at| ==> at[i] < at[j])
    && (forall i :: 0 <= i < |at| ==> at[i] < |named| && named[at[i]] == Some(ids[i]))
    && (forall j :: 0 <= j < |named| && named[j].Some? ==> j in at)
  }

  /** The ids are the names of a list, all of them, in its order. */
  ghost predicate InOrder(ids: seq<string>, named: seq<Option<string>>) {
    exists at :: Standing(ids, named, at)
  }

  /** The names of a list. */
  function Given(named: seq<Option<string>>): seq<string> {
    if named == [] then []
    else Given(named[..|named| - 1]) + if named[|named| - 1].Some? then [named[|named| - 1].value] else []
  }

  /** A name in the last position is the last id. */
  lemma LastStands(ids: seq<string>, named: seq<Option<string>>, at: seq<nat>)
    requires Standing(ids, named, at) && named != [] && named[|named| - 1].Some?
    ensures at != [] && at[|at| - 1] == |named| - 1 && ids[|ids| - 1] == named[|named| - 1].value
  {
    var i :| 0 <= i < |at| && at[i] == |named| - 1;
    assert at[i] <= at[|at| - 1];
  }

  lemma StandingInit(ids: seq<string>, named: seq<Option<string>>, at: seq<nat>)
    requires Standing(ids, named, at) && named != [] && named[|named| - 1].Some? && at != []
    requires at[|at| - 1] == |named| - 1
    ensures Standing(ids[..|ids| - 1], named[..|named| - 1], at[..|at| - 1])
  {
    var init, before := named[..|named| - 1], at[..|at| - 1];
    forall j | 0 <= j < |init| && init[j].Some? ensures j in before {
      var k :| 0 <= k < |at| && at[k] == j;
      assert before[k] == j;
    }
  }

  lemma {:induction false} StandingGiven(ids: seq<string>, named: seq<Option<string>>, at: seq<nat>)
    requires Standing(ids, named, at)
    ensures ids == Given(named)
  {
    if named == [] {
      assert at == [];
    } else if named[|named| - 1].Some? {
      LastStands(ids, named, at);
      StandingInit(ids, named, at);
      StandingGiven(ids[..|ids| - 1], named[..|named| - 1], at[..|at| - 1]);
      assert ids == ids[..|ids| - 1] + [named[|named| - 1].value];
    } else {
      assert Standing(ids, named[..|named| - 1], at);
      StandingGiven(ids, named[..|named| - 1], at);
    }
  }

  lemma {:induction false} GivenStands(named: seq<Option<string>>) returns (at: seq<nat>)
    ensures Standing(Given(named), named, at)
  {
    at := [];
    if named != [] {
      var init, last := named[..|named| - 1], |named| - 1;
      at := GivenStands(init);
      if named[last].Some? {
        var all := at + [last];
        forall j | 0 <= j < |named| && named[j].Some? ensures j in all {
          if j < last {
            assert init[j].Some? && j in at;
          } else {
            assert all[|at|] == j;
          }
        }
        at := all;
      } else {
        forall j | 0 <= j < |named| && named[j].Some? ensures j in at {
          assert init[j].Some?;
        }
      }
    }
  }

  lemma InOrderIff(ids: seq<string>, named: seq<Option<string>>)
    ensures InOrder(ids, named) <==> ids == Given(named)
  {
    if InOrder(ids, named) {
      var at :| Standing(ids, named, at);
      StandingGiven(ids, named, at);
    }
    var at := GivenStands(named);
  }

  lemma {:induction false} GivenHolds(named: seq<Option<string>>, x: string)
    ensures x in Given(named) <==> Some(x) in named
  {
    if named != [] {
      GivenHolds(named[..|named| - 1], x);
      assert named == named[..|named| - 1] + [named[|named| - 1]];
    }
  }

  /** Each id is the name of some position, and each name is one of the ids. */
  lemma InOrderHolds(ids: seq<string>, named: seq<Option<string>>)
    requires InOrder(ids, named)
    ensures forall x :: x in ids <==> Some(x) in named
  {
    InOrderIff(ids, named);
    forall x ensures x in ids <==> Some(x) in named {
      GivenHolds(named, x);
    }
  }
}
