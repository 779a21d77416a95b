/** Small vocabulary shared by the component models. */
module Common {
  /** A UUID in text form. */
  type Uuid = s: string | |s| == 36 && ':' !in s witness seq(36, _ => '0')

  datatype Option<+T> = None | Some(value: T)

  datatype Result<+T> = Ok(value: T) | Err(error: string)

  /** The sum of a sequence of counters. */
  function Sum(s: seq<nat>): nat {
    if s == [] then 0 else s[0] + Sum(s[1..])
  }

  lemma {:induction false} SumAppend(a: seq<nat>, b: seq<nat>)
    ensures Sum(a + b) == Sum(a) + Sum(b)
  {
    if a == [] {
      assert a + b == b;
    } else {
      assert (a + b)[1..] == a[1..] + b;
      SumAppend(a[1..], b);
    }
  }

  lemma SumOneMore(a: seq<nat>, b: seq<nat>, i: nat)
    requires |a| == |b| && i < |a| && b[i] == a[i] + 1
    requires forall j :: 0 <= j < |a| && j != i ==> a[j] == b[j]
    ensures Sum(b) == Sum(a) + 1
  {
    assert a == a[..i] + ([a[i]] + a[i + 1..]) && b == b[..i] + ([b[i]] + b[i + 1..]);
    assert a[..i] == b[..i] && a[i + 1..] == b[i + 1..];
    SumAppend(a[..i], [a[i]] + a[i + 1..]);
    SumAppend(b[..i], [b[i]] + b[i + 1..]);
    assert ([a[i]] + a[i + 1..])[1..] == a[i + 1..] && ([b[i]] + b[i + 1..])[1..] == b[i + 1..];
  }

  /** All the elements of a sequence of sequences, in order. */
  function Flatten<T>(s: seq<seq<T>>): seq<T> {
    if s == [] then [] else s[0] + Flatten(s[1..])
  }

  lemma {:induction false} FlattenAppend<T>(a: seq<seq<T>>, b: seq<seq<T>>)
    ensures Flatten(a + b) == Flatten(a) + Flatten(b)
  {
    if a == [] {
      assert a + b == b;
    } else {
      assert (a + b)[1..] == a[1..] + b;
      FlattenAppend(a[1..], b);
    }
  }

  lemma FlattenOne<T>(es: seq<T>)
    ensures Flatten([es]) == es
  {
    assert [es][1..] == [] && Flatten([es]) == es + Flatten([es][1..]);
  }

  /** One part grows: so does the whole, by as much. */
  lemma FlattenGrows<T>(a: seq<seq<T>>, b: seq<seq<T>>, i: nat, more: seq<T>)
    requires |a| == |b| && i < |a| && b[i] == a[i] + more
    requires forall j :: 0 <= j < |a| && j != i ==> a[j] == b[j]
    ensures multiset(Flatten(b)) == multiset(Flatten(a)) + multiset(more)
  {
    var x, y := a[..i], a[i + 1..];
    assert a == x + ([a[i]] + y) && b == x + ([b[i]] + y);
    FlattenAppend(x, [a[i]] + y);
    FlattenAppend(x, [b[i]] + y);
    FlattenAppend([a[i]], y);
    FlattenAppend([b[i]], y);
    FlattenOne(a[i]);
    FlattenOne(b[i]);
    assert Flatten(a) == Flatten(x) + (a[i] + Flatten(y));
    assert Flatten(b) == Flatten(x) + ((a[i] + more) + Flatten(y));
  }

  predicate Distinct<T(==)>(s: seq<T>) {
    forall i, j :: 0 <= i < j < |s| ==> s[i] != s[j]
  }

  function Elements<T>(s: seq<T>): set<T> {
    set x | x in s
  }

  /** A sequence has as many different elements as places exactly when none repeats. */
  lemma {:induction false} CountElements<T>(s: seq<T>)
    ensures |Elements(s)| <= |s|
    ensures |Elements(s)| == |s| <==> Distinct(s)
  {
    if s == [] {
      assert Elements(s) == {};
    } else {
      var init, last := s[..|s| - 1], s[|s| - 1];
      CountElements(init);
      assert s == init + [last];
      assert Elements(s) == Elements(init) + {last};
      if last in init {
        var i :| 0 <= i < |init| && init[i] == last;
        assert s[i] == s[|s| - 1];
        assert Elements(s) == Elements(init);
      } else {
        assert Distinct(s) <==> Distinct(init) by {
          if Distinct(s) {
            forall i, j | 0 <= i < j < |init| ensures init[i] != init[j] {
              assert s[i] != s[j];
            }
          }
        }
      }
    }
  }

  lemma SubsetCount<T>(a: set<T>, b: set<T>)
    requires a <= b
    ensures |a| <= |b| && (|a| == |b| <==> a == b)
  {
    assert b == a + (b - a);
    assert |b| == |a| + |b - a|;
    if a != b {
      var x :| x in b && x !in a;
      assert x in b - a;
    }
  }

  /** Appending all the elements of a set of distinct values keeps the order of both parts. */
  lemma DistinctAppend<T>(a: seq<T>, b: seq<T>)
    requires Distinct(a) && Distinct(b)
    requires forall x :: x in a ==> x !in b
    ensures Distinct(a + b)
  {
    forall i, j | 0 <= i < j < |a + b| ensures (a + b)[i] != (a + b)[j] {
      if i < |a| <= j {
        assert (a + b)[i] in a && (a + b)[j] in b;
      }
    }
  }

  predicate IsLeast(m: nat, s: set<nat>) {
    m in s && forall x :: x in s ==> m <= x
  }

  lemma {:induction false} HasLeast(s: set<nat>)
    requires s != {}
    ensures exists m :: IsLeast(m, s)
  {
    var e :| e in s;
    var rest := s - {e};
    if rest == {} {
      assert s == {e};
      assert IsLeast(e, s);
    } else {
      HasLeast(rest);
      var n :| IsLeast(n, rest);
      var m := if n < e then n else e;
      forall x | x in s ensures m <= x {
        assert x == e || x in rest;
      }
      assert IsLeast(m, s);
    }
  }

  function Least(s: set<nat>): (m: nat)
    requires s != {}
    ensures IsLeast(m, s)
  {
    HasLeast(s);
    var m :| m in s && IsLeast(m, s);
    m
  }

  /** No statement of a paged insert names a key twice. */
  predicate PagesDistinct<K(==)>(ks: seq<K>, page: nat)
    requires page >= 1
    decreases |ks|
  {
    ks == [] ||
    var n := if |ks| <= page then |ks| else page;
    Distinct(ks[..n]) && PagesDistinct(ks[n..], page)
  }

  lemma {:induction false} DistinctHasDistinctPages<K>(ks: seq<K>, page: nat)
    requires page >= 1 && Distinct(ks)
    ensures PagesDistinct(ks, page)
    decreases |ks|
  {
    if ks != [] {
      var n := if |ks| <= page then |ks| else page;
      forall i, j | 0 <= i < j < |ks[n..]| ensures ks[n..][i] != ks[n..][j] {
        assert ks[n..][i] == ks[n + i] && ks[n..][j] == ks[n + j];
      }
      DistinctHasDistinctPages(ks[n..], page);
    }
  }
}
