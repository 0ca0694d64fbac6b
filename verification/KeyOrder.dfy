/**
  `ci_cmp_type`, the order of the keys of a store: plain or without regard to case, decided by a switch.
 */
module KeyOrder {

  /** `std::tolower` in the "C" locale. */
  function ToLower(c: char): char {
    if 'A' <= c <= 'Z' then (c as int + 32) as char else c
  }

  /** The lower-case form of `s`: the member that stands for all keys equal to `s` up to case. */
  function Lower(s: string): string {
    seq(|s|, i requires 0 <= i < |s| => ToLower(s[i]))
  }

  function Canon(ci: bool, s: string): string {
    if ci then Lower(s) else s
  }

  /** Neither key is before the other. */
  predicate Same(ci: bool, a: string, b: string) {
    Canon(ci, a) == Canon(ci, b)
  }

  /**
    Where a character stands: strings compare their bytes unsigned, but the case-insensitive comparison
    works on plain `char`s, which are signed, so that it puts the bytes above 127 first.
   */
  function Rank(ci: bool, c: char): int {
    if ci && c as int >= 128 then c as int - 0x110000 else c as int
  }

  /** `std::lexicographical_compare` */
  predicate LexLess(ci: bool, a: string, b: string) {
    if b == "" then false
    else if a == "" then true
    else if a[0] != b[0] then Rank(ci, a[0]) < Rank(ci, b[0])
    else LexLess(ci, a[1..], b[1..])
  }

  /** `ci_cmp_type::operator()` */
  predicate Less(ci: bool, a: string, b: string) {
    LexLess(ci, Canon(ci, a), Canon(ci, b))
  }

  lemma {:induction false} LexTotal(ci: bool, a: string, b: string)
    ensures LexLess(ci, a, b) || a == b || LexLess(ci, b, a)
    ensures LexLess(ci, a, b) ==> a != b && !LexLess(ci, b, a)
  {
    if a != "" && b != "" && a[0] == b[0] {
      LexTotal(ci, a[1..], b[1..]);
      assert a == [a[0]] + a[1..] && b == [b[0]] + b[1..];
    }
  }

  lemma {:induction false} LexTransitive(ci: bool, a: string, b: string, c: string)
    requires LexLess(ci, a, b) && LexLess(ci, b, c)
    ensures LexLess(ci, a, c)
  {
    if a != "" && a[0] == b[0] == c[0] {
      LexTransitive(ci, a[1..], b[1..], c[1..]);
    }
  }

  /** The keys are in a strict weak order whose equivalence is equality, up to case when `ci` is on. */
  lemma LessIsStrictOrder(ci: bool, a: string, b: string, c: string)
    ensures Less(ci, a, b) || Same(ci, a, b) || Less(ci, b, a)
    ensures Less(ci, a, b) ==> !Same(ci, a, b) && !Less(ci, b, a)
    ensures Less(ci, a, b) && Less(ci, b, c) ==> Less(ci, a, c)
  {
    LexTotal(ci, Canon(ci, a), Canon(ci, b));
    if Less(ci, a, b) && Less(ci, b, c) {
      LexTransitive(ci, Canon(ci, a), Canon(ci, b), Canon(ci, c));
    }
  }

  // ----- the order spelled out

  const UPPER := "ABCDEFGHIJKLMNOPQRSTUVWXYZ"
  const LOWER := "abcdefghijklmnopqrstuvwxyz"

  /** The two cases of one letter. */
  ghost predicate TwoCases(c: char, d: char) {
    exists n :: 0 <= n < 26 && ((c == UPPER[n] && d == LOWER[n]) || (c == LOWER[n] && d == UPPER[n]))
  }

  /** Equal but for the case of letters, place by place. */
  ghost predicate Respelled(a: string, b: string) {
    && |a| == |b|
    && forall i :: 0 <= i < |a| ==> a[i] == b[i] || TwoCases(a[i], b[i])
  }

  lemma Letters(n: nat)
    requires n < 26
    ensures UPPER[n] as int == 'A' as int + n && LOWER[n] as int == 'a' as int + n
  {
  }

  lemma CaseGap(c: char, d: char)
    requires 'A' <= c <= 'Z' && d as int == c as int + 32
    ensures TwoCases(c, d) && TwoCases(d, c)
  {
    var n := c as int - 'A' as int;
    Letters(n);
    assert c == UPPER[n] && d == LOWER[n];
  }

  lemma CasesGap(c: char, d: char)
    requires TwoCases(c, d)
    ensures ('A' <= c <= 'Z' && d as int == c as int + 32) || ('A' <= d <= 'Z' && c as int == d as int + 32)
  {
    var n :| 0 <= n < 26 && ((c == UPPER[n] && d == LOWER[n]) || (c == LOWER[n] && d == UPPER[n]));
    Letters(n);
  }

  lemma ToLowerIff(c: char, d: char)
    ensures ToLower(c) == ToLower(d) <==> c == d || TwoCases(c, d)
  {
    if TwoCases(c, d) {
      CasesGap(c, d);
    } else if ToLower(c) == ToLower(d) && c != d {
      if 'A' <= c <= 'Z' {
        CaseGap(c, d);
      } else {
        CaseGap(d, c);
      }
      assert false;
    }
  }

  /** Two keys are the same exactly when they are equal, up to the case of letters when the switch is on. */
  lemma SameIff(a: string, b: string)
    ensures Same(false, a, b) <==> a == b
    ensures Same(true, a, b) <==> Respelled(a, b)
  {
    if Same(true, a, b) {
      assert |a| == |Lower(a)| == |Lower(b)| == |b|;
      forall i | 0 <= i < |a| ensures a[i] == b[i] || TwoCases(a[i], b[i]) {
        assert Lower(a)[i] == Lower(b)[i];
        ToLowerIff(a[i], b[i]);
      }
    }
    if Respelled(a, b) {
      forall i | 0 <= i < |a| ensures Lower(a)[i] == Lower(b)[i] {
        ToLowerIff(a[i], b[i]);
      }
      assert Lower(a) == Lower(b);
    }
  }

  /** Folding a key: capital letters become small, and nothing else changes. */
  lemma LowerIs(a: string, i: nat)
    requires i < |a|
    ensures |Lower(a)| == |a|
    ensures forall n :: 0 <= n < 26 && a[i] == UPPER[n] ==> Lower(a)[i] == LOWER[n]
    ensures a[i] !in UPPER ==> Lower(a)[i] == a[i]
  {
    forall n | 0 <= n < 26 ensures a[i] == UPPER[n] ==> Lower(a)[i] == LOWER[n] {
      Letters(n);
    }
    if 'A' <= a[i] <= 'Z' {
      Letters(a[i] as int - 'A' as int);
    }
  }

  /** Bytes in order, except that those above 127 come first when the switch is on. */
  ghost predicate Before(ci: bool, c: char, d: char) {
    if ci && (c as int > 127) != (d as int > 127) then c as int > 127 else c < d
  }

  /** `x` ends where `y` goes on, or has the smaller character at the first place where they differ. */
  ghost predicate PrecedesAt(ci: bool, x: string, y: string, k: nat) {
    && k <= |x| && k < |y|
    && x[..k] == y[..k]
    && (k < |x| ==> Before(ci, x[k], y[k]))
    && (k < |x| ==> x[k] != y[k])
  }

  lemma RankBefore(ci: bool, c: char, d: char)
    requires c as int < 256 && d as int < 256
    ensures Rank(ci, c) < Rank(ci, d) <==> Before(ci, c, d) && c != d
  {
  }

  ghost predicate Bytes(s: string) {
    forall i :: 0 <= i < |s| ==> s[i] as int < 256
  }

  /** The order of the keys, spelled out. */
  lemma {:induction false} LexLessIff(ci: bool, x: string, y: string)
    requires Bytes(x) && Bytes(y)
    ensures LexLess(ci, x, y) <==> exists k :: PrecedesAt(ci, x, y, k)
  {
    if x == "" || y == "" {
      assert x == "" && y != "" ==> PrecedesAt(ci, x, y, 0);
    } else {
      RankBefore(ci, x[0], y[0]);
      LexLessIff(ci, x[1..], y[1..]);
      if x[0] != y[0] && Before(ci, x[0], y[0]) {
        assert PrecedesAt(ci, x, y, 0);
      }
      if k :| PrecedesAt(ci, x, y, k) {
        PrecedesTail(ci, x, y, k);
      }
      if x[0] == y[0] && LexLess(ci, x[1..], y[1..]) {
        var k :| PrecedesAt(ci, x[1..], y[1..], k);
        PrecedesMore(ci, x, y, k);
      }
    }
  }

  lemma PrecedesTail(ci: bool, x: string, y: string, k: nat)
    requires x != "" && y != "" && PrecedesAt(ci, x, y, k)
    ensures k == 0 ==> x[0] != y[0] && Before(ci, x[0], y[0])
    ensures k > 0 ==> x[0] == y[0] && PrecedesAt(ci, x[1..], y[1..], k - 1)
  {
    if k > 0 {
      assert x[..k][0] == y[..k][0];
      assert x[1..][..k - 1] == x[..k][1..] && y[1..][..k - 1] == y[..k][1..];
    }
  }

  lemma PrecedesMore(ci: bool, x: string, y: string, k: nat)
    requires x != "" && y != "" && x[0] == y[0] && PrecedesAt(ci, x[1..], y[1..], k)
    ensures PrecedesAt(ci, x, y, k + 1)
  {
    assert x[..k + 1] == [x[0]] + x[1..][..k] && y[..k + 1] == [y[0]] + y[1..][..k];
  }

  lemma LessIff(a: string, b: string)
    requires Bytes(a) && Bytes(b)
    ensures Less(false, a, b) <==> exists k :: PrecedesAt(false, a, b, k)
    ensures Less(true, a, b) <==> exists k :: PrecedesAt(true, Lower(a), Lower(b), k)
  {
    LexLessIff(false, a, b);
    LexLessIff(true, Lower(a), Lower(b));
  }
}
