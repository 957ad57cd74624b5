// Stratified selection of instances (eval/sampling.ts:18-63). Shares are exact fractions, and both of the
// source's text orders are the order of UTF-16 code units.
module Sampling {
  import opened Apportionment
  import opened TextSort

  datatype Instance = Instance(id: string, repo: string)

  datatype Selection = Selection(selected: seq<Instance>, repos: seq<string>, quota: seq<nat>, total: int)

  function IdOf(i: Instance): string { i.id }

  function Same(s: string): string { s }

  // The instances of one repository, in input order.
  function Group(instances: seq<Instance>, repo: string): seq<Instance> {
    if instances == [] then []
    else
      var last := instances[|instances| - 1];
      Group(instances[..|instances| - 1], repo) + (if last.repo == repo then [last] else [])
  }

  // The repositories, in the order of their first instance.
  function Names(instances: seq<Instance>): seq<string> {
    if instances == [] then []
    else
      var names := Names(instances[..|instances| - 1]);
      if instances[|instances| - 1].repo in names then names else names + [instances[|instances| - 1].repo]
  }

  function Repos(instances: seq<Instance>): seq<string> { SortByText(Names(instances), Same) }

  function Sizes(instances: seq<Instance>, repos: seq<string>): (r: seq<nat>)
    ensures |r| == |repos| && forall i :: 0 <= i < |r| ==> r[i] == |Group(instances, repos[i])|
  {
    seq(|repos|, i requires 0 <= i < |repos| => |Group(instances, repos[i])|)
  }

  function Prefix<T>(s: seq<T>, k: nat): seq<T> { if k <= |s| then s[..k] else s }

  // The first `quota[i]` instances of each repository, by id.
  function Picked(instances: seq<Instance>, repos: seq<string>, quota: seq<nat>): seq<Instance>
    requires |quota| == |repos|
  {
    if repos == [] then []
    else
      var n := |repos| - 1;
      Picked(instances, repos[..n], quota[..n]) + Prefix(SortByText(Group(instances, repos[n]), IdOf), quota[n])
  }

  lemma {:induction false} QuotaLength(sizes: seq<nat>, total: nat)
    ensures |Quota(sizes, total)| == |sizes|
  {
    if Sum(sizes) > 0 { QuotasAddUp(sizes, total); }
  }

  function Sample(instances: seq<Instance>, total: int): (s: Selection)
    ensures |s.quota| == |s.repos|
  {
    if total <= 0 || instances == [] then Selection([], [], [], 0)
    else
      var repos := Repos(instances);
      var quota := Quota(Sizes(instances, repos), total);
      QuotaLength(Sizes(instances, repos), total);
      Selection(SortByText(Picked(instances, repos, quota), IdOf), repos, quota, total)
  }

  function Pilot(selected: seq<Instance>, n: nat): seq<Instance> { Prefix(SortByText(selected, IdOf), n) }

  // ----- grouping ---------------------------------------------------------------------------------------------

  lemma {:induction false} NamesAreRepos(instances: seq<Instance>)
    ensures forall r :: r in Names(instances) <==> exists i :: 0 <= i < |instances| && instances[i].repo == r
    ensures DistinctText(Names(instances), Same)
  {
    if instances != [] {
      var front, last := instances[..|instances| - 1], instances[|instances| - 1];
      NamesAreRepos(front);
      forall r ensures r in Names(instances) <==> exists i :: 0 <= i < |instances| && instances[i].repo == r {
        if r in Names(front) {
          var i :| 0 <= i < |front| && front[i].repo == r;
          assert instances[i].repo == r;
        }
        if r == last.repo { assert instances[|instances| - 1].repo == r; }
        if i :| 0 <= i < |instances| && instances[i].repo == r {
          assert i < |front| ==> front[i].repo == r;
        }
      }
    }
  }

  lemma {:induction false} GroupCounts(instances: seq<Instance>, repo: string, x: Instance)
    ensures multiset(Group(instances, repo))[x] == if x.repo == repo then multiset(instances)[x] else 0
  {
    if instances != [] {
      var front, last := instances[..|instances| - 1], instances[|instances| - 1];
      GroupCounts(front, repo, x);
      assert instances == front + [last];
    }
  }

  // Where each instance is counted: the sizes of all groups add up to the number of instances.
  lemma {:induction false} GroupSnoc(instances: seq<Instance>, x: Instance, repo: string)
    ensures Group(instances + [x], repo) == Group(instances, repo) + if x.repo == repo then [x] else []
  {
    assert (instances + [x])[..|instances|] == instances;
  }

  lemma SizesLast(instances: seq<Instance>, repos: seq<string>)
    requires repos != []
    ensures var n := |repos| - 1;
      Sum(Sizes(instances, repos)) == Sum(Sizes(instances, repos[..n])) + |Group(instances, repos[n])|
  {
    hide Group;
    var n := |repos| - 1;
    assert Sizes(instances, repos)[..n] == Sizes(instances, repos[..n]);
  }

  lemma {:induction false} OneMore(instances: seq<Instance>, x: Instance, repos: seq<string>)
    requires DistinctText(repos, Same)
    ensures Sum(Sizes(instances + [x], repos)) == Sum(Sizes(instances, repos)) + if x.repo in repos then 1 else 0
    decreases repos
  {
    if repos == [] {
      assert Sizes(instances + [x], repos) == Sizes(instances, repos) == [];
    } else {
      hide Group, Sizes, Sum;
      var n := |repos| - 1;
      GroupSnoc(instances, x, repos[n]);
      NotAgain(repos);
      OneMore(instances, x, repos[..n]);
      SizesLast(instances + [x], repos);
      SizesLast(instances, repos);
      assert repos == repos[..n] + [repos[n]];
    }
  }

  lemma NotAgain(repos: seq<string>)
    requires repos != [] && DistinctText(repos, Same)
    ensures repos[|repos| - 1] !in repos[..|repos| - 1] && DistinctText(repos[..|repos| - 1], Same)
  {
    forall i | 0 <= i < |repos| - 1 ensures repos[i] != repos[|repos| - 1] {
      assert Same(repos[i]) != Same(repos[|repos| - 1]);
    }
  }

  lemma {:induction false} NoneYet(repos: seq<string>)
    ensures Sum(Sizes([], repos)) == 0
    decreases repos
  {
    if repos != [] {
      NoneYet(repos[..|repos| - 1]);
      assert Sizes([], repos)[..|repos| - 1] == Sizes([], repos[..|repos| - 1]);
    }
  }

  lemma {:induction false} SizesAddUp(instances: seq<Instance>, repos: seq<string>)
    requires DistinctText(repos, Same)
    requires forall i :: 0 <= i < |instances| ==> instances[i].repo in repos
    ensures Sum(Sizes(instances, repos)) == |instances|
    decreases instances
  {
    if instances == [] {
      NoneYet(repos);
    } else {
      var front, last := instances[..|instances| - 1], instances[|instances| - 1];
      SizesAddUp(front, repos);
      OneMore(front, last, repos);
      assert instances == front + [last];
    }
  }

  lemma ReposCover(instances: seq<Instance>)
    ensures DistinctText(Repos(instances), Same)
    ensures forall i :: 0 <= i < |instances| ==> instances[i].repo in Repos(instances)
    ensures Sum(Sizes(instances, Repos(instances))) == |instances|
  {
    NamesAreRepos(instances);
    SortByTextSorts(Names(instances), Same);
    DistinctTextSame(Names(instances), Repos(instances), Same);
    forall i | 0 <= i < |instances| ensures instances[i].repo in Repos(instances) {
      MemberOfMultiset(Names(instances), Repos(instances), instances[i].repo);
    }
    SizesAddUp(instances, Repos(instances));
  }

  // ----- how many are selected ----------------------------------------------------------------------------------

  lemma {:induction false} PickedSize(instances: seq<Instance>, repos: seq<string>, quota: seq<nat>)
    requires |quota| == |repos| && forall i :: 0 <= i < |repos| ==> quota[i] <= |Group(instances, repos[i])|
    ensures |Picked(instances, repos, quota)| == Sum(quota)
    decreases repos
  {
    if repos != [] {
      var n := |repos| - 1;
      PickedSize(instances, repos[..n], quota[..n]);
      SortByTextSorts(Group(instances, repos[n]), IdOf);
    }
  }

  // The quotas add up to the total, each is the exact share rounded down or up, larger repositories get
  // no fewer, and for a total of at most all instances exactly that many are selected.
  lemma SampleIsProportional(instances: seq<Instance>, total: int)
    ensures total <= 0 || instances == [] ==> Sample(instances, total) == Selection([], [], [], 0)
    ensures total > 0 && instances != [] ==>
      var s := Sample(instances, total);
      && |s.quota| == |s.repos| && s.total == Sum(s.quota) == total
      && (forall i :: 0 <= i < |s.repos| ==>
            var size := |Group(instances, s.repos[i])|;
            s.quota[i] == Floor(size, total, |instances|)
            || (s.quota[i] == Floor(size, total, |instances|) + 1 && Remainder(size, total, |instances|) > 0))
      && (forall i, j :: 0 <= i < |s.repos| && 0 <= j < |s.repos| && |Group(instances, s.repos[i])| > |Group(instances, s.repos[j])|
            ==> s.quota[i] >= s.quota[j])
      && (total <= |instances| ==> |s.selected| == total)
  {
    hide Quota, Floor, Remainder, Repos, Group, Picked, Sum;
    if total <= 0 || instances == [] { return; }
    var repos := Repos(instances);
    var sizes := Sizes(instances, repos);
    ReposCover(instances);
    QuotasAddUp(sizes, total);
    forall i | 0 <= i < |repos|
      ensures Quota(sizes, total)[i] == Floor(sizes[i], total, |instances|)
        || (Quota(sizes, total)[i] == Floor(sizes[i], total, |instances|) + 1 && Remainder(sizes[i], total, |instances|) > 0)
    {
      QuotaIsRoundedShare(sizes, total, i);
    }
    forall i, j | 0 <= i < |repos| && 0 <= j < |repos| && sizes[i] > sizes[j] ensures Quota(sizes, total)[i] >= Quota(sizes, total)[j] {
      LargerGetNoFewer(sizes, total, i, j);
    }
    if total <= |instances| {
      forall i | 0 <= i < |repos| ensures Quota(sizes, total)[i] <= |Group(instances, repos[i])| { QuotaWithinSize(sizes, total, i); }
      PickedSize(instances, repos, Quota(sizes, total));
      SortByTextSorts(Picked(instances, repos, Quota(sizes, total)), IdOf);
    }
  }

  // ----- which are selected ---------------------------------------------------------------------------------------

  ghost predicate Within(s: seq<Instance>, instances: seq<Instance>, repos: seq<string>) {
    forall k :: 0 <= k < |s| ==> s[k] in instances && s[k].repo in repos
  }

  lemma InSorted(instances: seq<Instance>, repo: string, x: Instance)
    ensures x in SortByText(Group(instances, repo), IdOf) <==> x in instances && x.repo == repo
  {
    SortByTextSorts(Group(instances, repo), IdOf);
    MemberOfMultiset(Group(instances, repo), SortByText(Group(instances, repo), IdOf), x);
    GroupCounts(instances, repo, x);
    assert x in Group(instances, repo) <==> multiset(Group(instances, repo))[x] > 0;
    assert x in instances <==> multiset(instances)[x] > 0;
  }

  lemma PrefixWithin(instances: seq<Instance>, repo: string, k: nat)
    ensures forall i :: 0 <= i < |Prefix(SortByText(Group(instances, repo), IdOf), k)| ==>
      var x := Prefix(SortByText(Group(instances, repo), IdOf), k)[i]; x in instances && x.repo == repo
  {
    var s := SortByText(Group(instances, repo), IdOf);
    forall i | 0 <= i < |Prefix(s, k)| ensures Prefix(s, k)[i] in instances && Prefix(s, k)[i].repo == repo {
      assert s[i] in s;
      InSorted(instances, repo, s[i]);
    }
  }

  lemma GroupDistinct(instances: seq<Instance>, repo: string)
    requires DistinctText(instances, IdOf)
    ensures DistinctText(SortByText(Group(instances, repo), IdOf), IdOf)
  {
    var g := Group(instances, repo);
    SubDistinct(instances, g);
    SortByTextSorts(g, IdOf);
    DistinctTextSame(g, SortByText(g, IdOf), IdOf);
  }

  lemma {:induction false} SubDistinct(instances: seq<Instance>, g: seq<Instance>)
    requires DistinctText(instances, IdOf)
    requires exists repo :: g == Group(instances, repo)
    ensures DistinctText(g, IdOf)
  {
    var repo :| g == Group(instances, repo);
    if instances != [] {
      var front, last := instances[..|instances| - 1], instances[|instances| - 1];
      SubDistinct(front, Group(front, repo));
      forall i | 0 <= i < |Group(front, repo)| ensures Group(front, repo)[i].id != last.id {
        var x := Group(front, repo)[i];
        GroupCounts(front, repo, x);
        assert x in multiset(Group(front, repo));
        assert x in front;
        var k :| 0 <= k < |front| && front[k] == x;
        assert IdOf(instances[k]) != IdOf(last);
      }
    }
  }

  lemma JoinDistinct(a: seq<Instance>, b: seq<Instance>, instances: seq<Instance>, repos: seq<string>, repo: string)
    requires DistinctText(instances, IdOf) && DistinctText(a, IdOf) && DistinctText(b, IdOf)
    requires Within(a, instances, repos) && repo !in repos
    requires forall i :: 0 <= i < |b| ==> b[i] in instances && b[i].repo == repo
    ensures DistinctText(a + b, IdOf)
  {
    forall i, j | 0 <= i < |a| && 0 <= j < |b| ensures a[i].id != b[j].id {
      var k :| 0 <= k < |instances| && instances[k] == a[i];
      var l :| 0 <= l < |instances| && instances[l] == b[j];
      assert k != l;
      assert IdOf(instances[if k < l then k else l]) != IdOf(instances[if k < l then l else k]);
    }
  }

  lemma {:induction false} PickedWithin(instances: seq<Instance>, repos: seq<string>, quota: seq<nat>)
    requires |quota| == |repos|
    ensures Within(Picked(instances, repos, quota), instances, repos)
    decreases repos
  {
    if repos != [] {
      var n := |repos| - 1;
      PickedWithin(instances, repos[..n], quota[..n]);
      PrefixWithin(instances, repos[n], quota[n]);
      assert repos == repos[..n] + [repos[n]];
    }
  }

  lemma {:induction false} PickedDistinct(instances: seq<Instance>, repos: seq<string>, quota: seq<nat>)
    requires |quota| == |repos| && DistinctText(repos, Same) && DistinctText(instances, IdOf)
    ensures DistinctText(Picked(instances, repos, quota), IdOf)
    decreases repos
  {
    if repos != [] {
      var n := |repos| - 1;
      PickedDistinct(instances, repos[..n], quota[..n]);
      PickedWithin(instances, repos[..n], quota[..n]);
      PrefixWithin(instances, repos[n], quota[n]);
      GroupDistinct(instances, repos[n]);
      NotAgain(repos);
      JoinDistinct(Picked(instances, repos[..n], quota[..n]), Prefix(SortByText(Group(instances, repos[n]), IdOf), quota[n]),
                   instances, repos[..n], repos[n]);
    }
  }

  // ----- what each repository gives -------------------------------------------------------------------------------

  // The first instances of a repository by id, as many as its quota says.
  function Least(instances: seq<Instance>, repo: string, quota: nat): seq<Instance> {
    Prefix(SortByText(Group(instances, repo), IdOf), quota)
  }

  lemma {:induction false} PickedOfRepo(instances: seq<Instance>, repos: seq<string>, quota: seq<nat>, i: nat, x: Instance)
    requires |quota| == |repos| && DistinctText(repos, Same) && i < |repos| && x.repo == repos[i]
    ensures multiset(Picked(instances, repos, quota))[x] == multiset(Least(instances, repos[i], quota[i]))[x]
    decreases repos
  {
    hide Group;
    var n := |repos| - 1;
    NotAgain(repos);
    PrefixWithin(instances, repos[n], quota[n]);
    PickedWithin(instances, repos[..n], quota[..n]);
    if i < n {
      PickedOfRepo(instances, repos[..n], quota[..n], i, x);
      assert repos[i] in repos[..n];
      assert x !in Least(instances, repos[n], quota[n]);
    } else {
      assert x !in Picked(instances, repos[..n], quota[..n]);
    }
  }

  lemma ContributionIs(instances: seq<Instance>, repos: seq<string>, quota: seq<nat>, i: nat)
    requires |quota| == |repos| && DistinctText(repos, Same) && i < |repos|
    ensures multiset(Group(SortByText(Picked(instances, repos, quota), IdOf), repos[i]))
      == multiset(Least(instances, repos[i], quota[i]))
  {
    hide Group, Picked, Least, SortByText;
    var selected := SortByText(Picked(instances, repos, quota), IdOf);
    SortByTextSorts(Picked(instances, repos, quota), IdOf);
    forall x ensures multiset(Group(selected, repos[i]))[x] == multiset(Least(instances, repos[i], quota[i]))[x] {
      GroupCounts(selected, repos[i], x);
      if x.repo == repos[i] {
        PickedOfRepo(instances, repos, quota, i, x);
      } else {
        LeastIsOfRepo(instances, repos[i], quota[i], x);
      }
    }
  }

  lemma LeastIsOfRepo(instances: seq<Instance>, repo: string, quota: nat, x: Instance)
    ensures multiset(Least(instances, repo, quota))[x] > 0 ==> x.repo == repo
  {
    PrefixWithin(instances, repo, quota);
  }

  lemma SameSize(a: seq<Instance>, b: seq<Instance>)
    requires multiset(a) == multiset(b)
    ensures |a| == |b|
  {
    assert |multiset(a)| == |a| && |multiset(b)| == |b|;
  }

  lemma InPrefix<T>(s: seq<T>, k: nat, j: nat)
    requires j < |s|
    ensures j < k || k > |s| ==> s[j] in Prefix(s, k)
  {
    if j < k || k > |s| { assert Prefix(s, k)[j] == s[j]; }
  }

  // Repository `i` gives its first instances by id, as many as its quota says, or all it has.
  ghost predicate GivesItsLeast(instances: seq<Instance>, s: Selection, i: nat)
    requires i < |s.repos| == |s.quota|
  {
    var given, size := Group(s.selected, s.repos[i]), |Group(instances, s.repos[i])|;
    && multiset(given) == multiset(Least(instances, s.repos[i], s.quota[i]))
    && |given| == (if s.quota[i] <= size then s.quota[i] else size)
  }

  // Every repository gives its first instances by id, exactly as many as its quota when the total does not
  // exceed all of them.
  lemma EachGivesItsLeast(instances: seq<Instance>, total: int, i: nat)
    requires total > 0 && instances != [] && i < |Sample(instances, total).repos|
    ensures GivesItsLeast(instances, Sample(instances, total), i)
    ensures total <= |instances| ==>
      |Group(Sample(instances, total).selected, Sample(instances, total).repos[i])| == Sample(instances, total).quota[i]
  {
    hide Quota, Repos, Group, Picked, SortByText, Sum, Least, GivesItsLeast;
    var s := Sample(instances, total);
    ReposCover(instances);
    GivenByRepo(instances, s.repos, s.quota, total, i);
    if total <= |instances| {
      QuotaWithinSize(Sizes(instances, s.repos), total, i);
      GivenInFull(instances, s, i);
    }
  }

  lemma GivenByRepo(instances: seq<Instance>, repos: seq<string>, quota: seq<nat>, total: int, i: nat)
    requires |quota| == |repos| && DistinctText(repos, Same) && i < |repos|
    ensures GivesItsLeast(instances, Selection(SortByText(Picked(instances, repos, quota), IdOf), repos, quota, total), i)
  {
    hide Group, Picked, SortByText;
    var selected := SortByText(Picked(instances, repos, quota), IdOf);
    ContributionIs(instances, repos, quota, i);
    SameSize(Group(selected, repos[i]), Least(instances, repos[i], quota[i]));
    SortByTextSorts(Group(instances, repos[i]), IdOf);
  }

  lemma GivenInFull(instances: seq<Instance>, s: Selection, i: nat)
    requires i < |s.repos| == |s.quota| && GivesItsLeast(instances, s, i) && s.quota[i] <= |Group(instances, s.repos[i])|
    ensures |Group(s.selected, s.repos[i])| == s.quota[i]
  {
  }

  // None that is left out of them comes before one of them.
  lemma LeastComeFirst(instances: seq<Instance>, repo: string, quota: nat, x: Instance, y: Instance)
    requires x in Least(instances, repo, quota) && y !in Least(instances, repo, quota) && y in instances && y.repo == repo
    ensures NotAfter(x.id, y.id)
  {
    hide Group;
    var sorted := SortByText(Group(instances, repo), IdOf);
    SortByTextSorts(Group(instances, repo), IdOf);
    InSorted(instances, repo, y);
    var j :| 0 <= j < |sorted| && sorted[j] == y;
    var k :| 0 <= k < |Prefix(sorted, quota)| && Prefix(sorted, quota)[k] == x;
    InPrefix(sorted, quota, j);
    assert Prefix(sorted, quota)[k] == sorted[k] && k < quota <= j;
    assert NotAfter(IdOf(sorted[k]), IdOf(sorted[j]));
  }

  // The selected instances are given ones, no id is selected twice, and they are in id order.
  lemma SelectedAreDistinct(instances: seq<Instance>, total: int)
    requires DistinctText(instances, IdOf)
    ensures var s := Sample(instances, total).selected;
      DistinctText(s, IdOf) && InOrder(s, IdOf) && forall x :: x in s ==> x in instances
  {
    if total > 0 && instances != [] {
      var repos := Repos(instances);
      var quota := Quota(Sizes(instances, repos), total);
      hide Quota, Repos;
      QuotaLength(Sizes(instances, repos), total);
      ReposCover(instances);
      var picked := Picked(instances, repos, quota);
      PickedDistinct(instances, repos, quota);
      PickedWithin(instances, repos, quota);
      SortByTextSorts(picked, IdOf);
      DistinctTextSame(picked, SortByText(picked, IdOf), IdOf);
      forall x | x in SortByText(picked, IdOf) ensures x in instances { MemberOfMultiset(picked, SortByText(picked, IdOf), x); }
    }
  }

  // ----- the order of the input does not matter --------------------------------------------------------------------

  lemma SameRepos(a: seq<Instance>, b: seq<Instance>)
    requires multiset(a) == multiset(b)
    ensures Repos(a) == Repos(b)
  {
    NamesAreRepos(a);
    NamesAreRepos(b);
    forall r ensures multiset(Names(a))[r] == multiset(Names(b))[r] {
      if r in Names(a) { NameIn(a, b, r); }
      if r in Names(b) { NameIn(b, a, r); }
      CountDistinct(Names(a), r);
      CountDistinct(Names(b), r);
    }
    assert multiset(Names(a)) == multiset(Names(b));
    SortForgetsOrder(Names(a), Names(b), Same);
  }

  lemma NameIn(a: seq<Instance>, b: seq<Instance>, r: string)
    requires multiset(a) == multiset(b) && r in Names(a)
    ensures r in Names(b)
  {
    NamesAreRepos(a);
    NamesAreRepos(b);
    var i :| 0 <= i < |a| && a[i].repo == r;
    MemberOfMultiset(a, b, a[i]);
    var k :| 0 <= k < |b| && b[k] == a[i];
    assert b[k].repo == r;
  }

  lemma CountDistinct(s: seq<string>, r: string)
    requires DistinctText(s, Same)
    ensures multiset(s)[r] == if r in s then 1 else 0
  {
    if r in s {
      var i :| 0 <= i < |s| && s[i] == r;
      OnceInMultiset(s, i, Same);
    }
  }

  lemma SameGroup(a: seq<Instance>, b: seq<Instance>, repo: string)
    requires multiset(a) == multiset(b) && DistinctText(a, IdOf)
    ensures |Group(a, repo)| == |Group(b, repo)|
    ensures SortByText(Group(a, repo), IdOf) == SortByText(Group(b, repo), IdOf)
  {
    forall x ensures multiset(Group(a, repo))[x] == multiset(Group(b, repo))[x] {
      GroupCounts(a, repo, x);
      GroupCounts(b, repo, x);
    }
    assert multiset(Group(a, repo)) == multiset(Group(b, repo));
    assert |Group(a, repo)| == |multiset(Group(a, repo))| && |Group(b, repo)| == |multiset(Group(b, repo))|;
    SubDistinct(a, Group(a, repo));
    SortForgetsOrder(Group(a, repo), Group(b, repo), IdOf);
  }

  lemma {:induction false} SamePicked(a: seq<Instance>, b: seq<Instance>, repos: seq<string>, quota: seq<nat>)
    requires multiset(a) == multiset(b) && DistinctText(a, IdOf) && |quota| == |repos|
    ensures Picked(a, repos, quota) == Picked(b, repos, quota)
    decreases repos
  {
    if repos != [] {
      SamePicked(a, b, repos[..|repos| - 1], quota[..|repos| - 1]);
      SameGroup(a, b, repos[|repos| - 1]);
    }
  }

  // With distinct ids, any two orders of the same instances give the same selection.
  lemma OrderDoesNotMatter(a: seq<Instance>, b: seq<Instance>, total: int)
    requires multiset(a) == multiset(b) && DistinctText(a, IdOf)
    ensures Sample(a, total) == Sample(b, total)
  {
    assert |a| == |multiset(a)| && |b| == |multiset(b)|;
    if total > 0 && a != [] {
      var repos := Repos(a);
      SameRepos(a, b);
      hide Quota, Repos;
      forall i | 0 <= i < |repos| ensures Sizes(a, repos)[i] == Sizes(b, repos)[i] { SameGroup(a, b, repos[i]); }
      assert Sizes(a, repos) == Sizes(b, repos);
      QuotaLength(Sizes(a, repos), total);
      SamePicked(a, b, repos, Quota(Sizes(a, repos), total));
    }
  }

  // The pilot is the beginning of the selection, whose order is already that of the ids.
  lemma PilotIsPrefix(instances: seq<Instance>, total: int, n: nat)
    requires DistinctText(instances, IdOf)
    ensures Pilot(Sample(instances, total).selected, n) == Prefix(Sample(instances, total).selected, n)
  {
    SelectedAreDistinct(instances, total);
    var s := Sample(instances, total).selected;
    SortByTextSorts(s, IdOf);
    DistinctTextSame(s, SortByText(s, IdOf), IdOf);
    InOrderIsCanonical(s, SortByText(s, IdOf), IdOf);
  }

  // ----- the selection as it runs ----------------------------------------------------------------------------------

  ghost predicate Grouped(byRepo: map<string, seq<Instance>>, names: seq<string>, instances: seq<Instance>) {
    && names == Names(instances)
    && (forall r :: r in byRepo <==> r in names)
    && (forall r :: r in byRepo ==> byRepo[r] == Group(instances, r))
  }

  lemma GroupStep(byRepo: map<string, seq<Instance>>, names: seq<string>, instances: seq<Instance>, x: Instance)
    requires Grouped(byRepo, names, instances)
    ensures Grouped(byRepo[x.repo := (if x.repo in byRepo then byRepo[x.repo] else []) + [x]],
                    if x.repo in byRepo then names else names + [x.repo], instances + [x])
  {
    assert (instances + [x])[..|instances|] == instances;
    forall r ensures Group(instances + [x], r) == Group(instances, r) + if x.repo == r then [x] else [] {
      GroupSnoc(instances, x, r);
    }
    if x.repo !in names { NoGroup(instances, x.repo); }
  }

  lemma {:induction false} NoGroup(instances: seq<Instance>, repo: string)
    requires repo !in Names(instances)
    ensures Group(instances, repo) == []
  {
    if instances != [] { NoGroup(instances[..|instances| - 1], repo); }
  }

  method GroupByRepo(instances: seq<Instance>) returns (byRepo: map<string, seq<Instance>>, names: seq<string>)
    ensures Grouped(byRepo, names, instances)
  {
    hide Grouped;
    byRepo, names := map[], [];
    NothingGrouped();
    for i := 0 to |instances|
      invariant Grouped(byRepo, names, instances[..i])
    {
      var x := instances[i];
      GroupStep(byRepo, names, instances[..i], x);
      assert instances[..i] + [x] == instances[..i + 1];
      names := if x.repo in byRepo then names else names + [x.repo];
      byRepo := byRepo[x.repo := (if x.repo in byRepo then byRepo[x.repo] else []) + [x]];
    }
    assert instances[..|instances|] == instances;
  }

  lemma NothingGrouped()
    ensures Grouped(map[], [], [])
  {
  }

  method Pick(byRepo: map<string, seq<Instance>>, ghost instances: seq<Instance>, repos: seq<string>, quota: seq<nat>)
    returns (picked: seq<Instance>)
    requires |quota| == |repos|
    requires forall i :: 0 <= i < |repos| ==> repos[i] in byRepo && byRepo[repos[i]] == Group(instances, repos[i])
    ensures picked == Picked(instances, repos, quota)
  {
    hide Picked, Group;
    picked := [];
    NothingPicked(instances);
    for i := 0 to |repos|
      invariant picked == Picked(instances, repos[..i], quota[..i])
    {
      PickStep(instances, repos, quota, i);
      var k := quota[i];
      if k <= 0 { continue; }
      var sorted := SortByText(byRepo[repos[i]], IdOf);
      picked := picked + (if k <= |sorted| then sorted[..k] else sorted);
    }
    assert repos[..|repos|] == repos && quota[..|quota|] == quota;
  }

  lemma NothingPicked(instances: seq<Instance>)
    ensures Picked(instances, [], []) == []
  {
  }

  method StratifiedSample(instances: seq<Instance>, total: int) returns (s: Selection)
    ensures s == Sample(instances, total)
  {
    hide Quota, Sum, Picked;
    if total <= 0 || |instances| == 0 { return Selection([], [], [], 0); }
    var byRepo, names := GroupByRepo(instances);
    var repos := SortByText(names, Same);
    ReposCover(instances);
    SortByTextSorts(names, Same);
    forall i | 0 <= i < |repos| ensures repos[i] in byRepo { MemberOfMultiset(names, repos, repos[i]); }
    var sizes := seq(|repos|, i requires 0 <= i < |repos| => |byRepo[repos[i]]|);
    assert sizes == Sizes(instances, repos);
    var quota := Apportion(sizes, total);
    QuotaLength(sizes, total);
    var picked := Pick(byRepo, instances, repos, quota);
    return Selection(SortByText(picked, IdOf), repos, quota, total);
  }

  lemma PickStep(instances: seq<Instance>, repos: seq<string>, quota: seq<nat>, i: nat)
    requires i < |repos| == |quota|
    ensures Picked(instances, repos[..i + 1], quota[..i + 1])
      == Picked(instances, repos[..i], quota[..i]) + Prefix(SortByText(Group(instances, repos[i]), IdOf), quota[i])
    ensures quota[i] == 0 ==> Picked(instances, repos[..i + 1], quota[..i + 1]) == Picked(instances, repos[..i], quota[..i])
  {
    assert repos[..i + 1][..i] == repos[..i] && quota[..i + 1][..i] == quota[..i];
  }
}
