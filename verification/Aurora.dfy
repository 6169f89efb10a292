/** The cluster manager: how raw cloud replies become a writer, its readers and an availability verdict. */
module Aurora {
  import opened Base

  datatype Member = Member(id: Option<string>, isWriter: Option<bool>)

  datatype Cluster = Cluster(id: Option<string>, members: seq<Member>)

  datatype Instance = Instance(id: Option<string>, cluster: Option<string>,
                               status: Option<string>, instanceClass: Option<string>)

  datatype ClustersReply = ClustersFailed | Clusters(clusters: seq<Cluster>)

  datatype InstancesReply = InstancesFailed | Instances(found: seq<Instance>)

  /** Everything the cloud may answer while one `DescribeCluster` runs. */
  datatype ClusterReply = ClusterReply(clusters: ClustersReply, instances: InstancesReply)

  datatype Description = DescribeFailed | Described(writer: string, readers: seq<string>)

  datatype Verdict = CheckFailed | NotYet | AllAvailable

  // ---------------------------------------------------------------- describing

  predicate Flagged(m: Member) {
    m.id.Some? && m.isWriter == Some(true)
  }

  predicate Follower(m: Member) {
    m.id.Some? && m.isWriter != Some(true)
  }

  predicate Matches(identifier: string, i: Instance) {
    i.id.Some? && i.cluster == Some(identifier)
  }

  /** The identifiers a member list names, in order. */
  function MemberIds(ms: seq<Member>): seq<string> {
    if ms == [] then []
    else MemberIds(ms[..|ms| - 1]) + if ms[|ms| - 1].id.Some? then [ms[|ms| - 1].id.value] else []
  }

  /** The identifiers of the instances that belong to the cluster, in order. */
  function MatchingIds(identifier: string, xs: seq<Instance>): seq<string> {
    if xs == [] then []
    else
      MatchingIds(identifier, xs[..|xs| - 1]) +
      if Matches(identifier, xs[|xs| - 1]) then [xs[|xs| - 1].id.value] else []
  }

  function FollowerIds(ms: seq<Member>): seq<string> {
    if ms == [] then []
    else FollowerIds(ms[..|ms| - 1]) + if Follower(ms[|ms| - 1]) then [ms[|ms| - 1].id.value] else []
  }

  /** The last member flagged as writer names the writer; none flagged gives the empty name. */
  function FlaggedWriter(ms: seq<Member>): string {
    if ms == [] then ""
    else if Flagged(ms[|ms| - 1]) then ms[|ms| - 1].id.value
    else FlaggedWriter(ms[..|ms| - 1])
  }

  /** The list without its leading empty names. */
  function DropEmpty(ids: seq<string>): (r: seq<string>)
    ensures r != [] ==> r[0] != ""
    ensures ids != [] && ids[0] != "" ==> r == ids
    ensures |r| <= |ids|
  {
    if ids == [] then [] else if ids[0] == "" then DropEmpty(ids[1..]) else ids
  }

  /** The first cluster with the identifier, or the first of the reply. */
  function Chosen(identifier: string, cs: seq<Cluster>): (c: Cluster)
    requires cs != []
    ensures c in cs
    ensures (exists d :: d in cs && d.id == Some(identifier)) ==> c.id == Some(identifier)
  {
    var i := FirstWithId(identifier, cs, 0);
    if i < |cs| then cs[i] else cs[0]
  }

  function FirstWithId(identifier: string, cs: seq<Cluster>, i: nat): (j: nat)
    requires i <= |cs|
    ensures i <= j <= |cs|
    ensures forall k :: i <= k < j ==> cs[k].id != Some(identifier)
    ensures j < |cs| ==> cs[j].id == Some(identifier)
    decreases |cs| - i
  {
    if i == |cs| || cs[i].id == Some(identifier) then i else FirstWithId(identifier, cs, i + 1)
  }

  /** What a description reports for one cluster of the reply. */
  function Split(identifier: string, c: Cluster, instances: InstancesReply): Description {
    if FlaggedWriter(c.members) != "" then Described(FlaggedWriter(c.members), FollowerIds(c.members))
    else if |c.members| == 1 && c.members[0].id.Some? && c.members[0].id.value != "" then
      Described(c.members[0].id.value, [])
    else if c.members == [] && instances.Instances? then
      var ids := DropEmpty(MatchingIds(identifier, instances.found));
      if ids == [] then DescribeFailed else Described(ids[0], ids[1..])
    else DescribeFailed
  }

  function Describe(identifier: string, reply: ClusterReply): (d: Description)
    ensures d.Described? ==> d.writer != ""
  {
    if reply.clusters.ClustersFailed? || reply.clusters.clusters == [] then DescribeFailed
    else Split(identifier, Chosen(identifier, reply.clusters.clusters), reply.instances)
  }

  method FindCluster(identifier: string, cs: seq<Cluster>) returns (c: Cluster)
    requires cs != []
    ensures c == Chosen(identifier, cs)
  {
    var i := 0;
    while i < |cs|
      invariant i <= |cs|
      invariant FirstWithId(identifier, cs, 0) == FirstWithId(identifier, cs, i)
    {
      if cs[i].id == Some(identifier) {
        return cs[i];
      }
      i := i + 1;
    }
    c := cs[0];
  }

  method SplitMembers(ms: seq<Member>) returns (writer: string, readers: seq<string>)
    ensures writer == FlaggedWriter(ms)
    ensures readers == FollowerIds(ms)
  {
    writer, readers := "", [];
    for i := 0 to |ms|
      invariant writer == FlaggedWriter(ms[..i])
      invariant readers == FollowerIds(ms[..i])
    {
      assert ms[..i + 1][..i] == ms[..i];
      if ms[i].id.None? {
        continue;
      }
      if ms[i].isWriter == Some(true) {
        writer := ms[i].id.value;
      } else {
        readers := readers + [ms[i].id.value];
      }
    }
    assert ms[..|ms|] == ms;
  }

  lemma {:induction false} DropEmptySnoc(ids: seq<string>, x: string)
    ensures DropEmpty(ids + [x]) ==
            if DropEmpty(ids) == [] then (if x == "" then [] else [x]) else DropEmpty(ids) + [x]
  {
    if ids == [] {
      assert ids + [x] == [x];
    } else if ids[0] == "" {
      assert (ids + [x])[1..] == ids[1..] + [x];
      DropEmptySnoc(ids[1..], x);
    }
  }

  method SplitInstances(identifier: string, xs: seq<Instance>) returns (writer: string, readers: seq<string>)
    ensures var ids := DropEmpty(MatchingIds(identifier, xs));
            if ids == [] then writer == "" && readers == [] else writer == ids[0] && readers == ids[1..]
  {
    writer, readers := "", [];
    for i := 0 to |xs|
      invariant var ids := DropEmpty(MatchingIds(identifier, xs[..i]));
                if ids == [] then writer == "" && readers == [] else writer == ids[0] && readers == ids[1..]
    {
      assert xs[..i + 1][..i] == xs[..i];
      var before := MatchingIds(identifier, xs[..i]);
      assert before + [] == before;
      if xs[i].id.None? || xs[i].cluster != Some(identifier) {
        continue;
      }
      DropEmptySnoc(before, xs[i].id.value);
      if writer == "" {
        writer := xs[i].id.value;
      } else {
        readers := readers + [xs[i].id.value];
      }
    }
    assert xs[..|xs|] == xs;
  }

  /** The source's two loops and two fallbacks compute `Describe`. */
  method DescribeCluster(identifier: string, reply: ClusterReply) returns (d: Description)
    ensures d == Describe(identifier, reply)
  {
    if reply.clusters.ClustersFailed? || |reply.clusters.clusters| == 0 {
      return DescribeFailed;
    }
    var cluster := FindCluster(identifier, reply.clusters.clusters);
    var writer, readers := SplitMembers(cluster.members);
    if writer == "" && |cluster.members| == 1 && cluster.members[0].id.Some? {
      writer, readers := cluster.members[0].id.value, [];
    }
    if writer == "" && |cluster.members| == 0 {
      if reply.instances.Instances? && |reply.instances.found| > 0 {
        writer, readers := SplitInstances(identifier, reply.instances.found);
      }
    }
    if writer == "" {
      return DescribeFailed;
    }
    d := Described(writer, readers);
  }

  /** The writer and the readers are exactly the listed identifiers, each as often as it is listed. */
  ghost predicate Partitions(d: Description, ids: seq<string>) {
    d.Described? && multiset([d.writer] + d.readers) == multiset(ids)
  }

  /** The identifiers a reply lists for the cluster it names. */
  function Listed(identifier: string, reply: ClusterReply): seq<string>
    requires Describe(identifier, reply).Described?
  {
    var c := Chosen(identifier, reply.clusters.clusters);
    if c.members == [] then MatchingIds(identifier, reply.instances.found) else MemberIds(c.members)
  }

  /** When a reply names at most one writer (or, with no members, does not start with an empty name). */
  ghost predicate Unambiguous(identifier: string, reply: ClusterReply)
    requires Describe(identifier, reply).Described?
  {
    var c := Chosen(identifier, reply.clusters.clusters);
    if c.members == [] then MatchingIds(identifier, reply.instances.found)[..1] != [""]
    else Count(Flagged, c.members) <= 1
  }

  lemma {:induction false} FollowersMissFlagged(ms: seq<Member>)
    ensures |MemberIds(ms)| == |FollowerIds(ms)| + Count(Flagged, ms)
    ensures Count(Flagged, ms) == 0 ==> FlaggedWriter(ms) == "" && FollowerIds(ms) == MemberIds(ms)
  {
    if ms != [] {
      FollowersMissFlagged(ms[..|ms| - 1]);
    }
  }

  lemma {:induction false} OneFlagged(ms: seq<Member>)
    requires Count(Flagged, ms) == 1
    ensures multiset{FlaggedWriter(ms)} + multiset(FollowerIds(ms)) == multiset(MemberIds(ms))
  {
    var init, last := ms[..|ms| - 1], ms[|ms| - 1];
    FollowersMissFlagged(init);
    if Flagged(last) {
      assert FollowerIds(ms) == FollowerIds(init) + [] == MemberIds(init);
      assert multiset(MemberIds(ms)) == multiset(MemberIds(init)) + multiset{last.id.value};
    } else {
      OneFlagged(init);
      assert FlaggedWriter(ms) == FlaggedWriter(init);
      if last.id.Some? {
        assert multiset(MemberIds(ms)) == multiset(MemberIds(init)) + multiset{last.id.value};
        assert multiset(FollowerIds(ms)) == multiset(FollowerIds(init)) + multiset{last.id.value};
      } else {
        assert MemberIds(ms) == MemberIds(init) + [] && FollowerIds(ms) == FollowerIds(init) + [];
      }
    }
  }

  /** Every successful description accounts for each listed instance exactly once
      if and only if the reply is unambiguous. */
  lemma DescribePartitions(identifier: string, reply: ClusterReply)
    requires Describe(identifier, reply).Described?
    ensures Partitions(Describe(identifier, reply), Listed(identifier, reply)) <==> Unambiguous(identifier, reply)
  {
    var d := Describe(identifier, reply);
    var c := Chosen(identifier, reply.clusters.clusters);
    var ids := Listed(identifier, reply);
    if c.members == [] {
      var kept := DropEmpty(ids);
      assert [d.writer] + d.readers == kept;
      if ids[0] == "" {
        assert |kept| <= |ids[1..]|;
        assert |multiset(kept)| < |multiset(ids)|;
      }
    } else {
      FollowersMissFlagged(c.members);
      if Count(Flagged, c.members) == 0 {
        assert c.members[..0] == [];
        assert MemberIds(c.members) == MemberIds(c.members[..0]) + [c.members[0].id.value];
        assert [d.writer] + d.readers == ids;
      } else if Count(Flagged, c.members) == 1 {
        OneFlagged(c.members);
        assert multiset([d.writer] + d.readers) == multiset{d.writer} + multiset(d.readers);
      } else {
        assert |multiset([d.writer] + d.readers)| < |multiset(ids)|;
      }
    }
  }

  lemma {:induction false} DistinctOnce(s: seq<string>)
    requires forall x :: multiset(s)[x] <= 1
    ensures forall i, j :: 0 <= i < j < |s| ==> s[i] != s[j]
  {
    forall i, j | 0 <= i < j < |s| ensures s[i] != s[j] {
      assert s == s[..j] + s[j..];
      assert s[i] in s[..j] && s[j] in s[j..];
      assert multiset(s)[s[j]] == multiset(s[..j])[s[j]] + multiset(s[j..])[s[j]];
    }
  }

  lemma SameElements(s: seq<string>, t: seq<string>)
    requires multiset(s) == multiset(t)
    ensures forall x :: x in s <==> x in t
  {
    forall x ensures x in s <==> x in t {
      assert x in s <==> x in multiset(s);
      assert x in t <==> x in multiset(t);
    }
  }

  /** With distinct identifiers, an unambiguous reply gives one writer, distinct from its distinct readers. */
  lemma DescribeSeparates(identifier: string, reply: ClusterReply)
    requires Describe(identifier, reply).Described? && Unambiguous(identifier, reply)
    requires forall x :: multiset(Listed(identifier, reply))[x] <= 1
    ensures var d := Describe(identifier, reply);
            && d.writer !in d.readers
            && (forall i, j :: 0 <= i < j < |d.readers| ==> d.readers[i] != d.readers[j])
            && (forall x :: x in Listed(identifier, reply) <==> x == d.writer || x in d.readers)
  {
    DescribePartitions(identifier, reply);
    var d := Describe(identifier, reply);
    var all := [d.writer] + d.readers;
    DistinctOnce(all);
    forall i | 0 <= i < |d.readers| ensures d.readers[i] == all[i + 1] && d.readers[i] != d.writer {
      assert all[0] != all[i + 1];
    }
    SameElements(all, Listed(identifier, reply));
  }

  /** Two members flagged as writer: the first is reported neither as writer nor as reader. */
  lemma TwoWritersLoseOne()
    ensures var reply := ClusterReply(
                Clusters([Cluster(Some("c"), [Member(Some("a"), Some(true)), Member(Some("b"), Some(true))])]),
                InstancesFailed);
            Describe("c", reply) == Described("b", [])
  {
    var ms := [Member(Some("a"), Some(true)), Member(Some("b"), Some(true))];
    assert ms[..1][..0] == [];
    assert ms[..1] == [ms[0]];
    assert FollowerIds(ms[..1]) == FollowerIds(ms[..1][..0]) + [];
    assert FollowerIds(ms) == FollowerIds(ms[..1]) + [];
  }

  /** A cluster that lists one identifier both as its writer and as a follower. */
  const Doubled := Cluster(Some("c"), [Member(Some("a"), Some(true)), Member(Some("a"), Some(false))])

  /** Such a cluster is described with its writer among its readers. */
  lemma WriterListedAsReader(instances: InstancesReply)
    ensures Describe("c", ClusterReply(Clusters([Doubled]), instances)) == Described("a", ["a"])
  {
    var ms := Doubled.members;
    assert ms[..1] == [ms[0]] && ms[..1][..0] == [];
    assert FollowerIds(ms[..1]) == FollowerIds(ms[..1][..0]) + [];
    assert FollowerIds(ms) == FollowerIds(ms[..1]) + ["a"];
    assert FlaggedWriter(ms) == FlaggedWriter(ms[..1]);
  }

  // ---------------------------------------------------------------- what a description reports

  /** The `k`-th cluster of the reply is read: the first with the identifier, or the very first when none has it. */
  ghost predicate IsRead(identifier: string, cs: seq<Cluster>, k: int) {
    && 0 <= k < |cs|
    && if exists i :: 0 <= i < |cs| && cs[i].id == Some(identifier)
       then cs[k].id == Some(identifier) && forall i :: 0 <= i < k ==> cs[i].id != Some(identifier)
       else k == 0
  }

  /** The `w`-th member is flagged as writer and no identified member after it is. */
  ghost predicate FlaggedLast(ms: seq<Member>, w: int) {
    && 0 <= w < |ms| && ms[w].id.Some? && ms[w].isWriter == Some(true)
    && forall i :: w < i < |ms| && ms[i].id.Some? ==> ms[i].isWriter != Some(true)
  }

  /** What each member contributes to the readers. */
  function ReaderNames(ms: seq<Member>): (named: seq<Option<string>>)
    ensures |named| == |ms|
    ensures forall i :: 0 <= i < |ms| ==> named[i] == if ms[i].isWriter == Some(true) then None else ms[i].id
  {
    seq(|ms|, i requires 0 <= i < |ms| => if ms[i].isWriter == Some(true) then None else ms[i].id)
  }

  /** What each instance contributes to the instances of the cluster. */
  function InstanceNames(identifier: string, xs: seq<Instance>): (named: seq<Option<string>>)
    ensures |named| == |xs|
    ensures forall i :: 0 <= i < |xs| ==> named[i] == if xs[i].cluster == Some(identifier) then xs[i].id else None
  {
    seq(|xs|, i requires 0 <= i < |xs| => if xs[i].cluster == Some(identifier) then xs[i].id else None)
  }

  /** The last flagged member is the writer; all members that are not flagged are readers, as listed. */
  ghost predicate ReportsMembers(ms: seq<Member>, writer: string, readers: seq<string>) {
    && writer != ""
    && (exists w :: FlaggedLast(ms, w) && ms[w].id == Some(writer))
    && InOrder(readers, ReaderNames(ms))
  }

  /** The first named instance of the cluster is the writer; those listed after it are readers, as listed. */
  ghost predicate ReportsInstances(identifier: string, xs: seq<Instance>, writer: string, readers: seq<string>) {
    && writer != ""
    && exists w :: FirstNamed(identifier, xs, w) && xs[w].id == Some(writer) &&
                   InOrder(readers, InstanceNames(identifier, xs[w + 1..]))
  }

  /** The `w`-th instance is the first of the cluster with a name that is not empty. */
  ghost predicate FirstNamed(identifier: string, xs: seq<Instance>, w: int) {
    && 0 <= w < |xs| && xs[w].cluster == Some(identifier) && xs[w].id.Some? && xs[w].id.value != ""
    && forall i :: 0 <= i < w && xs[i].cluster == Some(identifier) ==> xs[i].id.None? || xs[i].id.value == ""
  }

  /** What the raw reply says of a cluster's writer and readers. */
  ghost predicate Reports(identifier: string, ms: seq<Member>, instances: InstancesReply,
                          writer: string, readers: seq<string>) {
    || ReportsMembers(ms, writer, readers)
    || (|ms| == 1 && ms[0].id == Some(writer) && writer != "" && readers == [])
    || (ms == [] && instances.Instances? && ReportsInstances(identifier, instances.found, writer, readers))
  }

  lemma {:induction false} FlaggedWriterIs(ms: seq<Member>, w: int)
    requires FlaggedLast(ms, w)
    ensures ms[w].id == Some(FlaggedWriter(ms))
  {
    if w < |ms| - 1 {
      FlaggedWriterIs(ms[..|ms| - 1], w);
    }
  }

  lemma {:induction false} SomeFlagged(ms: seq<Member>)
    requires FlaggedWriter(ms) != ""
    ensures exists w :: FlaggedLast(ms, w)
  {
    var last := |ms| - 1;
    if Flagged(ms[last]) {
      assert FlaggedLast(ms, last);
    } else {
      SomeFlagged(ms[..last]);
      var w :| FlaggedLast(ms[..last], w);
      assert FlaggedLast(ms, w);
    }
  }

  lemma {:induction false} FollowersGiven(ms: seq<Member>)
    ensures FollowerIds(ms) == Given(ReaderNames(ms))
  {
    if ms != [] {
      FollowersGiven(ms[..|ms| - 1]);
      assert ReaderNames(ms)[..|ms| - 1] == ReaderNames(ms[..|ms| - 1]);
    }
  }

  lemma {:induction false} MatchingGiven(identifier: string, xs: seq<Instance>)
    ensures MatchingIds(identifier, xs) == Given(InstanceNames(identifier, xs))
  {
    if xs != [] {
      MatchingGiven(identifier, xs[..|xs| - 1]);
      assert InstanceNames(identifier, xs)[..|xs| - 1] == InstanceNames(identifier, xs[..|xs| - 1]);
    }
  }

  lemma {:induction false} MatchingConcat(identifier: string, xs: seq<Instance>, ys: seq<Instance>)
    ensures MatchingIds(identifier, xs + ys) == MatchingIds(identifier, xs) + MatchingIds(identifier, ys)
  {
    if ys == [] {
      assert xs + ys == xs;
    } else {
      assert (xs + ys)[..|xs + ys| - 1] == xs + ys[..|ys| - 1];
      MatchingConcat(identifier, xs, ys[..|ys| - 1]);
    }
  }

  lemma {:induction false} DropEmptyPrefix(empty: seq<string>, ids: seq<string>)
    requires forall x :: x in empty ==> x == ""
    ensures DropEmpty(empty + ids) == DropEmpty(ids)
  {
    if empty == [] {
      assert empty + ids == ids;
    } else {
      assert empty[0] in empty && (empty + ids)[1..] == empty[1..] + ids;
      assert forall x :: x in empty[1..] ==> x in empty;
      DropEmptyPrefix(empty[1..], ids);
    }
  }

  /** The instances before the first named one contribute empty names at most. */
  lemma {:induction false} OnlyEmpty(identifier: string, xs: seq<Instance>)
    requires forall i :: 0 <= i < |xs| && xs[i].cluster == Some(identifier) ==> xs[i].id.None? || xs[i].id.value == ""
    ensures forall x :: x in MatchingIds(identifier, xs) ==> x == ""
  {
    if xs != [] {
      OnlyEmpty(identifier, xs[..|xs| - 1]);
    }
  }

  lemma SplitAtFirst(identifier: string, xs: seq<Instance>, w: int)
    requires FirstNamed(identifier, xs, w)
    ensures DropEmpty(MatchingIds(identifier, xs)) == [xs[w].id.value] + MatchingIds(identifier, xs[w + 1..])
  {
    var before, after := MatchingIds(identifier, xs[..w]), MatchingIds(identifier, xs[w + 1..]);
    assert xs == xs[..w] + ([xs[w]] + xs[w + 1..]);
    MatchingConcat(identifier, xs[..w], [xs[w]] + xs[w + 1..]);
    MatchingConcat(identifier, [xs[w]], xs[w + 1..]);
    assert [xs[w]][..0] == [];
    assert MatchingIds(identifier, [xs[w]]) == [xs[w].id.value];
    OnlyEmpty(identifier, xs[..w]);
    DropEmptyPrefix(before, [xs[w].id.value] + after);
  }

  lemma {:induction false} NoneNamed(identifier: string, xs: seq<Instance>)
    requires forall w :: !FirstNamed(identifier, xs, w)
    ensures DropEmpty(MatchingIds(identifier, xs)) == []
  {
    OneIsFirst(identifier, xs, |xs|);
    OnlyEmpty(identifier, xs);
    var ids := MatchingIds(identifier, xs);
    assert ids + [] == ids;
    DropEmptyPrefix(ids, []);
  }

  lemma {:induction false} OneIsFirst(identifier: string, xs: seq<Instance>, n: nat)
    requires n <= |xs| && forall w :: !FirstNamed(identifier, xs, w)
    ensures forall i :: 0 <= i < n && xs[i].cluster == Some(identifier) ==> xs[i].id.None? || xs[i].id.value == ""
  {
    if n > 0 {
      OneIsFirst(identifier, xs, n - 1);
      assert !FirstNamed(identifier, xs, n - 1);
    }
  }

  lemma InstancesIff(identifier: string, xs: seq<Instance>, writer: string, readers: seq<string>)
    ensures var ids := DropEmpty(MatchingIds(identifier, xs));
            ReportsInstances(identifier, xs, writer, readers) <==> ids != [] && ids[0] == writer && ids[1..] == readers
  {
    var ids := DropEmpty(MatchingIds(identifier, xs));
    forall w | FirstNamed(identifier, xs, w)
      ensures ids == [xs[w].id.value] + MatchingIds(identifier, xs[w + 1..])
      ensures InOrder(readers, InstanceNames(identifier, xs[w + 1..])) <==> readers == ids[1..]
    {
      SplitAtFirst(identifier, xs, w);
      MatchingGiven(identifier, xs[w + 1..]);
      InOrderIff(readers, InstanceNames(identifier, xs[w + 1..]));
    }
    if ids != [] && !(exists w :: FirstNamed(identifier, xs, w)) {
      NoneNamed(identifier, xs);
    }
  }

  lemma MembersIff(ms: seq<Member>, writer: string, readers: seq<string>)
    ensures ReportsMembers(ms, writer, readers) <==>
            FlaggedWriter(ms) != "" && writer == FlaggedWriter(ms) && readers == FollowerIds(ms)
  {
    forall w | FlaggedLast(ms, w) ensures ms[w].id == Some(FlaggedWriter(ms)) {
      FlaggedWriterIs(ms, w);
    }
    if FlaggedWriter(ms) != "" {
      SomeFlagged(ms);
    }
    FollowersGiven(ms);
    InOrderIff(readers, ReaderNames(ms));
  }

  lemma SplitIff(identifier: string, c: Cluster, instances: InstancesReply, writer: string, readers: seq<string>)
    ensures Split(identifier, c, instances) == Described(writer, readers) <==>
            Reports(identifier, c.members, instances, writer, readers)
  {
    MembersIff(c.members, writer, readers);
    if instances.Instances? {
      InstancesIff(identifier, instances.found, writer, readers);
    }
    if |c.members| == 1 && FlaggedWriter(c.members) != "" {
      SingleFlagged(c.members);
    }
  }

  lemma SingleFlagged(ms: seq<Member>)
    requires |ms| == 1 && FlaggedWriter(ms) != ""
    ensures ms[0].id == Some(FlaggedWriter(ms)) && FollowerIds(ms) == []
  {
    assert ms[..0] == [];
  }

  /** A description succeeds with a writer and readers if and only if the raw reply reports them: of the cluster
      that is read, the last flagged member and the others as listed, or its only member, or, without members,
      the first named instance and those after it. Whatever reports nothing fails. */
  lemma DescribesIff(identifier: string, reply: ClusterReply, writer: string, readers: seq<string>)
    ensures Describe(identifier, reply) == Described(writer, readers) <==>
            && reply.clusters.Clusters?
            && exists k :: IsRead(identifier, reply.clusters.clusters, k) &&
                           Reports(identifier, reply.clusters.clusters[k].members, reply.instances, writer, readers)
  {
    if reply.clusters.Clusters? && reply.clusters.clusters != [] {
      var cs := reply.clusters.clusters;
      forall k | IsRead(identifier, cs, k) ensures cs[k] == Chosen(identifier, cs) {
        OnlyOneRead(identifier, cs, k);
      }
      var i := FirstWithId(identifier, cs, 0);
      assert IsRead(identifier, cs, if i < |cs| then i else 0);
      SplitIff(identifier, Chosen(identifier, cs), reply.instances, writer, readers);
    }
  }

  lemma OnlyOneRead(identifier: string, cs: seq<Cluster>, k: int)
    requires IsRead(identifier, cs, k)
    ensures cs[k] == Chosen(identifier, cs)
  {
    var i := FirstWithId(identifier, cs, 0);
    assert i < |cs| ==> cs[i].id == Some(identifier);
  }

  /** When some member with a name is flagged as writer and no identified member after it is, that one is the
      writer, and the readers are exactly the members that are not flagged, in the order of the list. */
  lemma FlaggedMemberWrites(identifier: string, reply: ClusterReply, k: int, w: int)
    requires reply.clusters.Clusters? && IsRead(identifier, reply.clusters.clusters, k)
    requires FlaggedLast(reply.clusters.clusters[k].members, w)
    requires reply.clusters.clusters[k].members[w].id != Some("")
    ensures var ms := reply.clusters.clusters[k].members;
            var d := Describe(identifier, reply);
            && d.Described? && Some(d.writer) == ms[w].id
            && InOrder(d.readers, ReaderNames(ms))
            && forall x :: x in d.readers <==>
                 exists i :: 0 <= i < |ms| && ms[i].id == Some(x) && ms[i].isWriter != Some(true)
  {
    var ms := reply.clusters.clusters[k].members;
    var writer, readers := ms[w].id.value, Given(ReaderNames(ms));
    InOrderIff(readers, ReaderNames(ms));
    assert Reports(identifier, ms, reply.instances, writer, readers);
    DescribesIff(identifier, reply, writer, readers);
    InOrderHolds(readers, ReaderNames(ms));
    forall x ensures Some(x) in ReaderNames(ms) <==>
        exists i :: 0 <= i < |ms| && ms[i].id == Some(x) && ms[i].isWriter != Some(true)
    {
      if i :| 0 <= i < |ms| && ms[i].id == Some(x) && ms[i].isWriter != Some(true) {
        assert ReaderNames(ms)[i] == Some(x);
      }
    }
  }

  // ---------------------------------------------------------------- checking

  function ReplyAt(replies: seq<InstancesReply>, i: nat): InstancesReply {
    if i < |replies| then replies[i] else InstancesFailed
  }

  /** The reply reports an available instance of the class. */
  predicate Available(reply: InstancesReply, instanceClass: string) {
    && reply.Instances?
    && reply.found != []
    && reply.found[0].status == Some("available")
    && reply.found[0].instanceClass == Some(instanceClass)
  }

  /** The verdict on `n` instances, the i-th of which was answered by the i-th reply. */
  function Check(n: nat, instanceClass: string, replies: seq<InstancesReply>, i: nat := 0): (v: Verdict)
    requires i <= n
    ensures v.AllAvailable? <==> forall k :: i <= k < n ==> Available(ReplyAt(replies, k), instanceClass)
    ensures v.CheckFailed? <==>
            exists k :: i <= k < n && ReplyAt(replies, k).InstancesFailed? &&
                        forall j :: i <= j < k ==> Available(ReplyAt(replies, j), instanceClass)
    decreases n - i
  {
    if i == n then AllAvailable
    else if ReplyAt(replies, i).InstancesFailed? then CheckFailed
    else if !Available(ReplyAt(replies, i), instanceClass) then NotYet
    else Check(n, instanceClass, replies, i + 1)
  }

  /** All are available if and only if every reply lists first an instance that is available at the class; the
      check errs if and only if a reply fails and every one before it does list such an instance. */
  lemma VerdictTells(n: nat, instanceClass: string, replies: seq<InstancesReply>)
    ensures Check(n, instanceClass, replies).AllAvailable? <==>
            n <= |replies| && forall k :: 0 <= k < n ==>
              && replies[k].Instances? && |replies[k].found| > 0
              && replies[k].found[0].status == Some("available")
              && replies[k].found[0].instanceClass == Some(instanceClass)
    ensures Check(n, instanceClass, replies).CheckFailed? <==>
            exists k :: 0 <= k < n && k <= |replies| && (k < |replies| ==> replies[k].InstancesFailed?) &&
              forall j :: 0 <= j < k ==>
                && replies[j].Instances? && |replies[j].found| > 0
                && replies[j].found[0].status == Some("available")
                && replies[j].found[0].instanceClass == Some(instanceClass)
  {
    forall j: nat ensures Available(ReplyAt(replies, j), instanceClass) <==>
        && j < |replies| && replies[j].Instances? && |replies[j].found| > 0
        && replies[j].found[0].status == Some("available")
        && replies[j].found[0].instanceClass == Some(instanceClass)
    {}
    if |replies| < n {
      assert ReplyAt(replies, |replies|).InstancesFailed?;
    }
  }

  method CheckInstancesAvailable(ids: seq<string>, instanceClass: string, replies: seq<InstancesReply>)
    returns (v: Verdict)
    ensures v == Check(|ids|, instanceClass, replies)
  {
    var i := 0;
    while i < |ids|
      invariant i <= |ids|
      invariant Check(|ids|, instanceClass, replies) == Check(|ids|, instanceClass, replies, i)
    {
      var reply := ReplyAt(replies, i);
      if reply.InstancesFailed? {
        return CheckFailed;
      }
      if |reply.found| == 0 {
        return NotYet;
      }
      var inst := reply.found[0];
      if inst.status != Some("available") {
        return NotYet;
      }
      if inst.instanceClass != Some(instanceClass) {
        return NotYet;
      }
      i := i + 1;
    }
    v := AllAvailable;
  }
}
