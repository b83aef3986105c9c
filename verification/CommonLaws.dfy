/** What the shared order and slice mean, and a law of invariants over runs. */
module CommonLaws {
  import opened Common

  /** The order is the lexicographic one: a proper prefix comes first, and otherwise the smaller character
      at the first place where the strings differ. */
  lemma {:induction false} BeforeLexicographic(a: string, b: string, n: nat)
    requires n <= |a| && n <= |b| && a[..n] == b[..n]
    requires n == |a| || n == |b| || a[n] != b[n]
    ensures Before(a, b) <==> n < |b| && (n == |a| || a[n] < b[n])
  {
    if n > 0 {
      assert a[0] == a[..n][0] == b[..n][0] == b[0];
      assert a[1..][..n - 1] == a[..n][1..] && b[1..][..n - 1] == b[..n][1..];
      BeforeLexicographic(a[1..], b[1..], n - 1);
    }
  }

  /** For a bound that is not negative the slice is a prefix, as long as the bound and the sequence allow;
      a negative bound drops that many from the end. */
  lemma SliceToLength<T>(s: seq<T>, k: int)
    ensures SliceTo(s, k) <= s
    ensures k >= 0 ==> |SliceTo(s, k)| == (if k < |s| then k else |s|)
    ensures k < 0 ==> |SliceTo(s, k)| == (if |s| + k > 0 then |s| + k else 0)
  {
  }

  /** When each step keeps `holds` exactly if it does not break it, `holds` lasts exactly if nothing breaks it. */
  lemma {:induction false} LastsExactly(holds: int -> bool, breaks: int -> bool, n: nat)
    requires holds(0) && forall i :: 0 <= i < n && holds(i) ==> (holds(i + 1) <==> !breaks(i))
    ensures (forall i :: 0 <= i <= n ==> holds(i)) <==> (forall i :: 0 <= i < n ==> !breaks(i))
  {
    if n > 0 {
      LastsExactly(holds, breaks, n - 1);
      assert holds(n - 1) ==> (holds(n) <==> !breaks(n - 1));
    }
  }
}
