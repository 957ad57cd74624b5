// A stable sort by a text key, in the order of UTF-16 code units.
module TextSort {
  import opened CanonicalJson

  predicate NotAfter(a: string, b: string) { !Less(b, a) }

  ghost predicate InOrder<T>(s: seq<T>, key: T -> string) {
    forall i, j :: 0 <= i < j < |s| ==> NotAfter(key(s[i]), key(s[j]))
  }

  ghost predicate DistinctText<T>(s: seq<T>, key: T -> string) {
    forall i, j :: 0 <= i < j < |s| ==> key(s[i]) != key(s[j])
  }

  function InsertText<T>(x: T, s: seq<T>, key: T -> string): seq<T> {
    if s == [] || NotAfter(key(x), key(s[0])) then [x] + s else [s[0]] + InsertText(x, s[1..], key)
  }

  function SortByText<T>(s: seq<T>, key: T -> string): seq<T> {
    if s == [] then [] else InsertText(s[0], SortByText(s[1..], key), key)
  }

  lemma NotAfterTransitive(a: string, b: string, c: string)
    requires NotAfter(a, b) && NotAfter(b, c)
    ensures NotAfter(a, c)
  {
    NotLessTransitive(a, b, c);
  }

  lemma NotAfterTotal(a: string, b: string)
    ensures NotAfter(a, b) || NotAfter(b, a)
    ensures NotAfter(a, b) && NotAfter(b, a) ==> a == b
  {
    LessTotal(a, b);
  }

  lemma {:induction false} InsertTextKeeps<T>(x: T, s: seq<T>, key: T -> string)
    ensures multiset(InsertText(x, s, key)) == multiset([x]) + multiset(s)
    ensures |InsertText(x, s, key)| == |s| + 1
  {
    if !(s == [] || NotAfter(key(x), key(s[0]))) {
      InsertTextKeeps(x, s[1..], key);
      assert s == [s[0]] + s[1..];
    }
  }

  lemma {:induction false} InsertTextInOrder<T>(x: T, s: seq<T>, key: T -> string)
    requires InOrder(s, key)
    ensures InOrder(InsertText(x, s, key), key)
  {
    hide Less, NotAfter;
    if s == [] {
    } else if NotAfter(key(x), key(s[0])) {
      forall j | 0 <= j < |s| ensures NotAfter(key(x), key(s[j])) {
        if j > 0 { NotAfterTransitive(key(x), key(s[0]), key(s[j])); }
      }
    } else {
      var rest := InsertText(x, s[1..], key);
      InsertTextInOrder(x, s[1..], key);
      InsertTextKeeps(x, s[1..], key);
      NotAfterTotal(key(x), key(s[0]));
      forall j | 0 <= j < |rest| ensures NotAfter(key(s[0]), key(rest[j])) {
        assert rest[j] in multiset(rest);
        assert rest[j] == x || rest[j] in s[1..];
      }
    }
  }

  lemma {:induction false} SortByTextSorts<T>(s: seq<T>, key: T -> string)
    ensures InOrder(SortByText(s, key), key)
    ensures multiset(SortByText(s, key)) == multiset(s) && |SortByText(s, key)| == |s|
  {
    if s != [] {
      SortByTextSorts(s[1..], key);
      InsertTextInOrder(s[0], SortByText(s[1..], key), key);
      InsertTextKeeps(s[0], SortByText(s[1..], key), key);
      assert s == [s[0]] + s[1..];
    }
  }

  lemma MemberOfMultiset<T>(s: seq<T>, t: seq<T>, x: T)
    requires multiset(s) == multiset(t)
    ensures x in s <==> x in t
  {
    assert x in s <==> x in multiset(s);
    assert x in t <==> x in multiset(t);
  }

  lemma FirstAgrees<T(!new)>(a: seq<T>, b: seq<T>, key: T -> string)
    requires InOrder(a, key) && InOrder(b, key) && DistinctText(a, key) && multiset(a) == multiset(b) && a != []
    ensures b != [] && a[0] == b[0]
  {
    MemberOfMultiset(a, b, a[0]);
    assert b != [];
    MemberOfMultiset(a, b, b[0]);
    var i :| 0 <= i < |b| && b[i] == a[0];
    var j :| 0 <= j < |a| && a[j] == b[0];
    if j > 0 && i > 0 {
      NotAfterTotal(key(a[0]), key(a[j]));
      assert false;
    }
  }

  lemma TailMultiset<T>(a: seq<T>, b: seq<T>)
    requires multiset(a) == multiset(b) && a != [] && b != [] && a[0] == b[0]
    ensures multiset(a[1..]) == multiset(b[1..])
  {
    assert a == [a[0]] + a[1..] && b == [b[0]] + b[1..];
    assert multiset(a[1..]) == multiset(a) - multiset([a[0]]);
    assert multiset(b[1..]) == multiset(b) - multiset([b[0]]);
  }

  // Sorted lists with distinct keys and the same elements are equal.
  lemma {:induction false} InOrderIsCanonical<T(!new)>(a: seq<T>, b: seq<T>, key: T -> string)
    requires InOrder(a, key) && InOrder(b, key) && DistinctText(a, key) && multiset(a) == multiset(b)
    ensures a == b
  {
    if a == [] {
      assert |multiset(a)| == |multiset(b)| == |b|;
    } else {
      FirstAgrees(a, b, key);
      TailMultiset(a, b);
      hide NotAfter;
      InOrderIsCanonical(a[1..], b[1..], key);
      assert a == [a[0]] + a[1..] && b == [b[0]] + b[1..];
    }
  }

  lemma {:induction false} DistinctTextSame<T(!new)>(a: seq<T>, b: seq<T>, key: T -> string)
    requires DistinctText(a, key) && multiset(a) == multiset(b)
    ensures DistinctText(b, key)
  {
    forall i, j | 0 <= i < j < |b| ensures key(b[i]) != key(b[j]) {
      if key(b[i]) == key(b[j]) {
        MemberOfMultiset(a, b, b[i]);
        MemberOfMultiset(a, b, b[j]);
        var k :| 0 <= k < |a| && a[k] == b[i];
        var l :| 0 <= l < |a| && a[l] == b[j];
        assert k == l;
        TwiceInMultiset(b, i, j);
        OnceInMultiset(a, k, key);
        assert false;
      }
    }
  }

  lemma TwiceInMultiset<T>(s: seq<T>, i: nat, j: nat)
    requires i < j < |s| && s[i] == s[j]
    ensures multiset(s)[s[i]] >= 2
  {
    assert s == s[..i] + [s[i]] + s[i + 1..j] + [s[j]] + s[j + 1..];
  }

  lemma OnceInMultiset<T>(s: seq<T>, i: nat, key: T -> string)
    requires i < |s| && DistinctText(s, key)
    ensures multiset(s)[s[i]] == 1
  {
    assert s == s[..i] + [s[i]] + s[i + 1..];
    assert s[i] !in s[..i] && s[i] !in s[i + 1..];
    assert multiset(s[..i])[s[i]] == 0 && multiset(s[i + 1..])[s[i]] == 0;
  }

  // Sorting forgets the order of the input, when the keys are distinct.
  lemma SortForgetsOrder<T(!new)>(a: seq<T>, b: seq<T>, key: T -> string)
    requires DistinctText(a, key) && multiset(a) == multiset(b)
    ensures SortByText(a, key) == SortByText(b, key)
  {
    SortByTextSorts(a, key);
    SortByTextSorts(b, key);
    DistinctTextSame(a, SortByText(a, key), key);
    InOrderIsCanonical(SortByText(a, key), SortByText(b, key), key);
  }
}
