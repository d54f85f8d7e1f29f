/** Listing in the order of ids, as `sortByID` does. */
module IdOrder {

  /** String comparison, character by character. */
  predicate Before(a: string, b: string) {
    b != "" && (a == "" || (if a[0] != b[0] then a[0] < b[0] else Before(a[1..], b[1..])))
  }

  lemma {:induction false} BeforeIsTotal(a: string, b: string)
    ensures a == b || Before(a, b) || Before(b, a)
  {
    if a != "" && b != "" && a[0] == b[0] {
      BeforeIsTotal(a[1..], b[1..]);
      assert a == [a[0]] + a[1..] && b == [b[0]] + b[1..];
    }
  }

  lemma {:induction false} BeforeIsTransitive(a: string, b: string, c: string)
    requires Before(a, b) && Before(b, c)
    ensures Before(a, c)
  {
    if a != "" && a[0] == b[0] == c[0] {
      BeforeIsTransitive(a[1..], b[1..], c[1..]);
    }
  }

  lemma {:induction false} NotBeforeItself(a: string)
    ensures !Before(a, a)
  {
    if a != "" {
      NotBeforeItself(a[1..]);
    }
  }

  ghost predicate InIdOrder<T>(s: seq<T>, id: T -> string) {
    forall i, j :: 0 <= i < j < |s| ==> Before(id(s[i]), id(s[j]))
  }

  function InsertById<T>(s: seq<T>, x: T, id: T -> string): seq<T> {
    if s == [] || Before(id(s[|s| - 1]), id(x)) then s + [x]
    else InsertById(s[..|s| - 1], x, id) + [s[|s| - 1]]
  }

  function SortById<T>(s: seq<T>, id: T -> string): seq<T> {
    if s == [] then [] else InsertById(SortById(s[..|s| - 1], id), s[|s| - 1], id)
  }

  lemma {:induction false} InsertHas<T(!new)>(s: seq<T>, x: T, id: T -> string)
    ensures forall y :: y in InsertById(s, x, id) <==> y in s || y == x
  {
    if s != [] && !Before(id(s[|s| - 1]), id(x)) {
      InsertHas(s[..|s| - 1], x, id);
      assert s == s[..|s| - 1] + [s[|s| - 1]];
    }
  }

  lemma {:induction false} InsertInOrder<T(!new)>(s: seq<T>, x: T, id: T -> string)
    requires InIdOrder(s, id) && forall y :: y in s ==> id(y) != id(x)
    ensures InIdOrder(InsertById(s, x, id), id)
  {
    if s != [] {
      var front, last := s[..|s| - 1], s[|s| - 1];
      forall y | y in front ensures Before(id(y), id(last)) {
        var i :| 0 <= i < |front| && front[i] == y;
        assert s[i] == y;
      }
      if Before(id(last), id(x)) {
        forall y | y in front ensures Before(id(y), id(x)) {
          BeforeIsTransitive(id(y), id(last), id(x));
        }
      } else {
        assert last in s;
        BeforeIsTotal(id(last), id(x));
        InsertInOrder(front, x, id);
        InsertHas(front, x, id);
        var r := InsertById(front, x, id);
        forall i | 0 <= i < |r| ensures Before(id(r[i]), id(last)) {
          assert r[i] in r;
        }
      }
    }
  }

  /** Sorting on distinct ids: the same elements, in strict order. */
  lemma {:induction false} SortedById<T(!new)>(s: seq<T>, id: T -> string)
    requires forall i, j :: 0 <= i < j < |s| ==> id(s[i]) != id(s[j])
    ensures InIdOrder(SortById(s, id), id)
    ensures forall y :: y in SortById(s, id) <==> y in s
  {
    if s != [] {
      var front, last := s[..|s| - 1], s[|s| - 1];
      SortedById(front, id);
      forall y | y in front ensures id(y) != id(last) {
        var i :| 0 <= i < |front| && front[i] == y;
        assert s[i] == y;
      }
      InsertInOrder(SortById(front, id), last, id);
      InsertHas(SortById(front, id), last, id);
      assert s == front + [last];
    }
  }

  lemma BothNonEmpty<T(!new)>(s: seq<T>, t: seq<T>)
    requires s != [] && forall y :: y in s <==> y in t
    ensures t != []
  {
    assert s[0] in t;
  }

  /** A listing in strict order is determined by its elements. */
  lemma {:induction false} ListingIsUnique<T(!new)>(s: seq<T>, t: seq<T>, id: T -> string)
    requires InIdOrder(s, id) && InIdOrder(t, id)
    requires forall y :: y in s <==> y in t
    ensures s == t
  {
    if s != [] {
      BothNonEmpty(s, t);
      var x, sf, tf := s[|s| - 1], s[..|s| - 1], t[..|t| - 1];
      LastIsLatest(s, t, id);
      assert s == sf + [x] && t == tf + [x];
      LastIsOnce(sf, x, id);
      LastIsOnce(tf, x, id);
      forall y ensures y in sf <==> y in tf {
        assert y in s <==> y in t;
      }
      ListingIsUnique(sf, tf, id);
    } else if t != [] {
      BothNonEmpty(t, s);
    }
  }

  lemma LastIsLatest<T(!new)>(s: seq<T>, t: seq<T>, id: T -> string)
    requires InIdOrder(s, id) && InIdOrder(t, id) && s != [] && t != []
    requires forall y :: y in s <==> y in t
    ensures s[|s| - 1] == t[|t| - 1]
  {
    var x, y := s[|s| - 1], t[|t| - 1];
    assert x in s && y in t;
    var i :| 0 <= i < |t| && t[i] == x;
    var j :| 0 <= j < |s| && s[j] == y;
    NotBeforeItself(id(x));
    if i < |t| - 1 && j < |s| - 1 {
      BeforeIsTransitive(id(x), id(y), id(x));
    }
  }

  lemma LastIsOnce<T(!new)>(front: seq<T>, last: T, id: T -> string)
    requires InIdOrder(front + [last], id)
    ensures InIdOrder(front, id) && forall y :: y in front <==> y in front + [last] && y != last
  {
    var s := front + [last];
    forall i, j | 0 <= i < j < |front| ensures Before(id(front[i]), id(front[j])) {
      assert s[i] == front[i] && s[j] == front[j];
    }
    forall y | y in front ensures y != last {
      var i :| 0 <= i < |front| && front[i] == y;
      NotBeforeItself(id(y));
      assert Before(id(s[i]), id(s[|front|]));
    }
  }

  /** `a` and `b` agree up to `i`, where `a` ends or has the smaller character. */
  ghost predicate DifferAt(a: string, b: string, i: nat) {
    && i < |b| && i <= |a| && a[..i] == b[..i] && (i < |a| ==> a[i] < b[i])
  }

  lemma HeadsAgree(a: string, b: string, i: nat)
    requires DifferAt(a, b, i) && i > 0
    ensures a != "" && b != "" && a[0] == b[0]
  {
    assert a[..i][0] == b[..i][0];
  }

  /** The order is that of the first difference; a prefix comes first. */
  lemma {:induction false} BeforeIffDiffer(a: string, b: string)
    ensures Before(a, b) <==> exists i: nat :: DifferAt(a, b, i)
  {
    forall i: nat | DifferAt(a, b, i) && i > 0 ensures a != "" && b != "" && a[0] == b[0] {
      HeadsAgree(a, b, i);
    }
    if a == "" || b == "" || a[0] != b[0] {
      assert Before(a, b) ==> DifferAt(a, b, 0);
    } else {
      BeforeIffDiffer(a[1..], b[1..]);
      if i: nat :| DifferAt(a[1..], b[1..], i) {
        assert a[..i + 1] == [a[0]] + a[1..][..i] && b[..i + 1] == [b[0]] + b[1..][..i];
        assert DifferAt(a, b, i + 1);
      }
      if i: nat :| DifferAt(a, b, i) {
        assert i > 0;
        assert a[1..][..i - 1] == a[..i][1..] && b[1..][..i - 1] == b[..i][1..];
        assert DifferAt(a[1..], b[1..], i - 1);
      }
    }
  }
}
