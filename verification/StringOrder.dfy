/** The order of strings that listings are sorted by. */
module StringOrder {

  /** `strings.Compare(a, b) < 0`. */
  predicate Before(a: string, b: string) {
    b != "" && (a == "" || a[0] < b[0] || (a[0] == b[0] && Before(a[1..], b[1..])))
  }

  /** `a` is a proper prefix of `b`, or smaller at the first character where they differ. */
  lemma {:induction false} BeforeIs(a: string, b: string)
    ensures Before(a, b) <==>
      || (|a| < |b| && a == b[..|a|])
      || exists i :: DifferAt(a, b, i) && a[i] < b[i]
  {
    if a != "" && b != "" && a[0] == b[0] {
      BeforeIs(a[1..], b[1..]);
      assert |a| <= |b| ==> (a == b[..|a|] <==> a[1..] == b[1..][..|a| - 1]);
      if i :| DifferAt(a, b, i) && a[i] < b[i] {
        assert forall k :: 0 <= k < i - 1 ==> a[1..][k] == a[k + 1] && b[1..][k] == b[k + 1];
        assert DifferAt(a[1..], b[1..], i - 1);
      }
      if i :| DifferAt(a[1..], b[1..], i) && a[1..][i] < b[1..][i] {
        assert forall k :: 0 <= k < i ==> a[1..][k] == b[1..][k];
        assert forall k :: 0 < k < i + 1 ==> a[k] == a[1..][k - 1] && b[k] == b[1..][k - 1];
        assert DifferAt(a, b, i + 1);
      }
    } else if a != "" && b != "" && a[0] < b[0] {
      assert DifferAt(a, b, 0);
    }
  }

  predicate DifferAt(a: string, b: string, i: int) {
    0 <= i < |a| && i < |b| && a[i] != b[i] && forall k :: 0 <= k < i ==> a[k] == b[k]
  }

  lemma {:induction false} BeforeIsOrder(a: string, b: string, c: string)
    ensures !Before(a, a)
    ensures Before(a, b) && Before(b, c) ==> Before(a, c)
  {
    if a != "" {
      BeforeIsOrder(a[1..], if b == "" then "" else b[1..], if c == "" then "" else c[1..]);
    }
  }

  lemma {:induction false} BeforeIsTotal(a: string, b: string)
    ensures a == b || Before(a, b) || Before(b, a)
  {
    if a != "" && b != "" && a[0] == b[0] {
      BeforeIsTotal(a[1..], b[1..]);
      assert a == [a[0]] + a[1..] && b == [b[0]] + b[1..];
    }
  }

  /** What comes after something that does not come after `c` does not come after `c` either. */
  lemma NotBefore(a: string, b: string, c: string)
    requires !Before(b, a) && !Before(c, b)
    ensures !Before(c, a)
  {
    BeforeIsTotal(a, b);
    BeforeIsOrder(c, a, b);
  }
}
