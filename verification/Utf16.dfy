/** The key order of section 3.2.3 of RFC 8785, as utf16Less of api/executor_locator.go decides it. */
module Utf16 {
  /** The UTF-16 code units of one code point (a Dafny char is a Unicode scalar value). */
  function Units(c: char): (units: seq<nat>)
    ensures |units| > 0
  {
    var code := c as int;
    if code < 0x1_0000 then [code]
    else [0xD800 + (code - 0x1_0000) / 0x400, 0xDC00 + (code - 0x1_0000) % 0x400]
  }

  /** utf16.Encode. */
  function Encode(s: string): seq<nat> {
    if s == "" then [] else Units(s[0]) + Encode(s[1..])
  }

  /** Where two sequences first part, the first is smaller or has ended. */
  ghost predicate PartsAt(a: seq<nat>, b: seq<nat>, i: nat) {
    && i <= |a| && i < |b| && a[..i] == b[..i]
    && (i == |a| || a[i] < b[i])
  }

  ghost predicate Before(a: seq<nat>, b: seq<nat>) {
    exists i: nat :: PartsAt(a, b, i)
  }

  ghost predicate Less(first: string, second: string) {
    Before(Encode(first), Encode(second))
  }

  method Utf16Less(first: string, second: string) returns (less: bool)
    ensures less <==> Less(first, second)
  {
    var a, b := Encode(first), Encode(second);
    var index := 0;
    while index < |a| && index < |b|
      invariant index <= |a| && index <= |b| && a[..index] == b[..index]
    {
      if a[index] != b[index] {
        PartsOnce(a, b, index);
        return a[index] < b[index];
      }
      index := index + 1;
    }
    PartsOnce(a, b, index);
    return |a| < |b|;
  }

  /** Once two sequences have parted, what comes later does not matter. */
  lemma {:induction false} PartsOnce(a: seq<nat>, b: seq<nat>, i: nat)
    requires i <= |a| && i <= |b| && a[..i] == b[..i]
    requires i == |a| || i == |b| || a[i] != b[i]
    ensures Before(a, b) <==> i < |b| && (i == |a| || a[i] < b[i])
  {
    if i < |b| && (i == |a| || a[i] < b[i]) {
      assert PartsAt(a, b, i);
    }
    if Before(a, b) {
      var k: nat :| PartsAt(a, b, k);
      if k < i {
        assert a[..i][k] == b[..i][k];
      }
    }
  }

  // ----- a strict total order on code-point sequences -----------------------------------------

  lemma {:induction false} FirstDifference(a: seq<nat>, b: seq<nat>) returns (i: nat)
    ensures i <= |a| && i <= |b| && a[..i] == b[..i]
    ensures i == |a| || i == |b| || a[i] != b[i]
  {
    i := 0;
    while i < |a| && i < |b| && a[i] == b[i]
      invariant i <= |a| && i <= |b| && a[..i] == b[..i]
    {
      i := i + 1;
    }
  }

  lemma {:induction false} BeforeIsTotal(a: seq<nat>, b: seq<nat>)
    ensures !Before(a, a)
    ensures a != b ==> (Before(a, b) <==> !Before(b, a))
  {
    PartsOnce(a, a, |a|);
    if a != b {
      var i := FirstDifference(a, b);
      PartsOnce(a, b, i);
      PartsOnce(b, a, i);
      assert a[..|a|] == a && b[..|b|] == b;
    }
  }

  lemma {:induction false} BeforeIsTransitive(a: seq<nat>, b: seq<nat>, c: seq<nat>)
    requires Before(a, b) && Before(b, c)
    ensures Before(a, c)
  {
    var i: nat :| PartsAt(a, b, i);
    var k: nat :| PartsAt(b, c, k);
    var m := if i < k then i else k;
    assert a[..m] == a[..i][..m] && b[..m] == b[..i][..m] && b[..m] == b[..k][..m] && c[..m] == c[..k][..m];
    if i < k {
      assert b[..k][i] == c[..k][i];
    } else if k < i {
      assert a[..i][k] == b[..i][k];
    }
    assert PartsAt(a, c, m);
  }

  /** Different code points have different units, and a surrogate never passes for a code point of its own. */
  lemma {:induction false} UnitsParse(c: char, d: char, x: seq<nat>, y: seq<nat>)
    requires Units(c) + x == Units(d) + y
    ensures c == d && x == y
  {
    assert (Units(c) + x)[0] == Units(c)[0] && (Units(d) + y)[0] == Units(d)[0];
    assert |Units(c)| == |Units(d)|;
    if |Units(c)| == 2 {
      assert (Units(c) + x)[1] == Units(c)[1] && (Units(d) + y)[1] == Units(d)[1];
    }
    assert (Units(c) + x)[|Units(c)|..] == x && (Units(d) + y)[|Units(d)|..] == y;
    assert c as int == d as int;
  }

  lemma {:induction false} EncodeIsInjective(s: string, t: string)
    requires Encode(s) == Encode(t)
    ensures s == t
    decreases |s|
  {
    if s != "" && t != "" {
      UnitsParse(s[0], t[0], Encode(s[1..]), Encode(t[1..]));
      EncodeIsInjective(s[1..], t[1..]);
      assert s == [s[0]] + s[1..] && t == [t[0]] + t[1..];
    }
  }

  /** utf16Less is a strict total order on all strings: irreflexive, transitive, and any two different strings are
      ordered one way and not the other. */
  lemma {:induction false} StrictTotalOrder(s: string, t: string, u: string)
    ensures !Less(s, s)
    ensures Less(s, t) && Less(t, u) ==> Less(s, u)
    ensures s != t ==> (Less(s, t) <==> !Less(t, s))
  {
    BeforeIsTotal(Encode(s), Encode(s));
    BeforeIsTotal(Encode(s), Encode(t));
    if Less(s, t) && Less(t, u) {
      BeforeIsTransitive(Encode(s), Encode(t), Encode(u));
    }
    if s != t && Encode(s) == Encode(t) {
      EncodeIsInjective(s, t);
    }
  }

  /** It is not the order of the code points themselves: U+1F600 comes before U+FF21. */
  lemma {:induction false} SurrogatesComeFirst()
    ensures Less("\U{1F600}", "\U{FF21}") && "\U{FF21}"[0] < "\U{1F600}"[0]
  {
    var a, b := "\U{1F600}", "\U{FF21}";
    assert a[1..] == "" && b[1..] == "";
    assert PartsAt(Encode(a), Encode(b), 0);
  }

  /** A code point of the basic plane is its own unit, any other one a high and a low surrogate that give it back. */
  lemma {:induction false} UnitsGiveBack(c: char)
    ensures var units := Units(c);
            if c as int < 0x1_0000 then units == [c as int]
            else
              && |units| == 2 && 0xD800 <= units[0] < 0xDC00 <= units[1] < 0xE000
              && c as int == 0x1_0000 + (units[0] - 0xD800) * 0x400 + (units[1] - 0xDC00)
  {
  }
}
