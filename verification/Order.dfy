/** The lexicographic order of Rust strings, and what sorting by it means. */
module Order {

  /** Strictly before, character by character. */
  predicate Before(a: string, b: string) {
    b != [] && (a == [] || a[0] < b[0] || (a[0] == b[0] && Before(a[1..], b[1..])))
  }

  /** One string is before another exactly when it is a proper prefix of it, or smaller where they first differ. */
  lemma {:induction false} BeforeIff(a: string, b: string)
    ensures Before(a, b) <==> exists n: nat :: n <= |a| && n < |b| && a[..n] == b[..n] && (n == |a| || a[n] < b[n])
  {
    if a != [] && b != [] && a[0] == b[0] {
      BeforeIff(a[1..], b[1..]);
      assert a == [a[0]] + a[1..] && b == [b[0]] + b[1..];
      if n: nat :| n <= |a[1..]| && n < |b[1..]| && a[1..][..n] == b[1..][..n] && (n == |a[1..]| || a[1..][n] < b[1..][n]) {
        assert a[..n + 1] == [a[0]] + a[1..][..n] && b[..n + 1] == [b[0]] + b[1..][..n];
      }
      if n: nat :| n <= |a| && n < |b| && a[..n] == b[..n] && (n == |a| || a[n] < b[n]) {
        assert n > 0;
        assert a[1..][..n - 1] == a[..n][1..] && b[1..][..n - 1] == b[..n][1..];
      }
    } else if Before(a, b) {
      assert a[..0] == b[..0];
    } else if n: nat :| n <= |a| && n < |b| && a[..n] == b[..n] && (n == |a| || a[n] < b[n]) {
      assert n > 0 ==> a[..n][0] == b[..n][0];
    }
  }

  lemma {:induction false} BeforeIsAsymmetric(a: string, b: string)
    requires Before(a, b)
    ensures a != b && !Before(b, a)
  {
    if a != [] && a[0] == b[0] { BeforeIsAsymmetric(a[1..], b[1..]); }
  }

  lemma {:induction false} BeforeIsTransitive(a: string, b: string, c: string)
    requires Before(a, b) && Before(b, c)
    ensures Before(a, c)
  {
    if a != [] && a[0] == b[0] == c[0] { BeforeIsTransitive(a[1..], b[1..], c[1..]); }
  }

  lemma {:induction false} BeforeIsTotal(a: string, b: string)
    ensures a == b || Before(a, b) || Before(b, a)
  {
    if a != [] && b != [] && a[0] == b[0] {
      BeforeIsTotal(a[1..], b[1..]);
      assert a == [a[0]] + a[1..] && b == [b[0]] + b[1..];
    }
  }

  predicate AscendingIds(ids: seq<string>) {
    forall i, j :: 0 <= i < j < |ids| ==> Before(ids[i], ids[j])
  }

  predicate IsLeast(ids: set<string>, least: string) {
    least in ids && forall id :: id in ids && id != least ==> Before(least, id)
  }

  lemma {:induction false} LeastExists(ids: set<string>)
    requires ids != {}
    ensures exists least :: IsLeast(ids, least)
  {
    var some :| some in ids;
    var rest := ids - {some};
    if rest == {} {
      assert ids == {some};
      assert IsLeast(ids, some);
    } else {
      LeastExists(rest);
      var other :| IsLeast(rest, other);
      BeforeIsTotal(some, other);
      if Before(some, other) {
        forall id | id in ids && id != some ensures Before(some, id) {
          if id != other { BeforeIsTransitive(some, other, id); }
        }
        assert IsLeast(ids, some);
      } else {
        assert IsLeast(ids, other);
      }
    }
  }

  lemma LeastIsUnique(ids: set<string>, x: string, y: string)
    requires IsLeast(ids, x) && IsLeast(ids, y)
    ensures x == y
  {
    if x != y { BeforeIsAsymmetric(x, y); }
  }

  function Least(ids: set<string>): (least: string)
    requires ids != {}
    ensures IsLeast(ids, least)
  {
    LeastExists(ids);
    assert forall x, y :: IsLeast(ids, x) && IsLeast(ids, y) ==> x == y by {
      forall x, y | IsLeast(ids, x) && IsLeast(ids, y) ensures x == y { LeastIsUnique(ids, x, y); }
    }
    var least :| least in ids && IsLeast(ids, least);
    least
  }

  /** The iteration order of a `BTreeMap`: its keys, ascending, each once. */
  function SortedIds(ids: set<string>): (r: seq<string>)
    ensures AscendingIds(r)
    ensures forall id :: id in ids <==> id in r
  {
    if ids == {} then [] else [Least(ids)] + SortedIds(ids - {Least(ids)})
  }
}
