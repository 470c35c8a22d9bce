/** C string helpers used by the port driver.

    A C string is modelled as the sequence of its characters before the
    terminating NUL; `strlen(s)` is then `|s|` and `strcmp(a, b) == 0` is
    `a == b`. Only `strncmp` needs a model of its own, because it compares a
    bounded prefix and stops at the first terminator. */
module CString {

  /** `strncmp(a, b, n) == 0`: the first `n` characters agree, where
      running off the end of a string reads its terminating NUL, and the
      comparison stops once both strings have ended. */
  function StrnEqual(a: string, b: string, n: nat): bool
  {
    if n == 0 then true
    else if |a| == 0 || |b| == 0 then |a| == 0 && |b| == 0
    else a[0] == b[0] && StrnEqual(a[1..], b[1..], n - 1)
  }

  /** `b` is a prefix of `a`. */
  predicate HasPrefix(a: string, b: string)
  {
    |b| <= |a| && a[..|b|] == b
  }

  /** Comparing with `strncmp` over exactly the length of a non-empty
      pattern is a prefix test. */
  lemma {:induction false} StrnEqualIsPrefix(a: string, b: string)
    requires |b| > 0
    ensures StrnEqual(a, b, |b|) <==> HasPrefix(a, b)
  {
    if |a| == 0 {
    } else if |b| == 1 {
      assert StrnEqual(a[1..], b[1..], 0);
      assert a[..1] == [a[0]];
    } else {
      StrnEqualIsPrefix(a[1..], b[1..]);
      if HasPrefix(a, b) {
        assert a[1..][..|b| - 1] == a[..|b|][1..];
      }
    }
  }
}
