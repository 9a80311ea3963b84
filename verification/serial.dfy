// Device serial comparison: the C pointer loop, the Rust iterator chain, and the looser UDID comparison.
module Serial {
  import opened Words

  /** A character as its code point; bytes are the code points below 256. */
  type Text = seq<nat>

  const DASH: nat := 0x2D

  function Upper(c: nat): nat {
    if 0x61 <= c <= 0x7A then c - 0x20 else c
  }

  /** The ASCII letters, each lower-case one above its upper-case partner. */
  const LOWER_CASE: string := "abcdefghijklmnopqrstuvwxyz"
  const UPPER_CASE: string := "ABCDEFGHIJKLMNOPQRSTUVWXYZ"
  const HEX_DIGITS: string := "0123456789abcdefABCDEF"

  lemma LettersUpper(k: nat)
    requires k < 26
    ensures Upper(LOWER_CASE[k] as nat) == UPPER_CASE[k] as nat
  {
  }

  lemma LettersLower(k: nat)
    requires k < 26
    ensures Lower(UPPER_CASE[k] as nat) == LOWER_CASE[k] as nat
  {
  }

  /** Everything but a lower-case letter stays as it is, and everything but an upper-case one under `Lower`. */
  lemma OthersStay(c: nat)
    ensures (forall k :: 0 <= k < 26 ==> LOWER_CASE[k] as nat != c) ==> Upper(c) == c
    ensures (forall k :: 0 <= k < 26 ==> UPPER_CASE[k] as nat != c) ==> Lower(c) == c
  {
    if 0x61 <= c <= 0x7A {
      assert LOWER_CASE[c - 0x61] as nat == c;
    }
    if 0x41 <= c <= 0x5A {
      assert UPPER_CASE[c - 0x41] as nat == c;
    }
  }

  lemma HexDigits(c: nat)
    ensures IsHexDigit(c) <==> exists k :: 0 <= k < 22 && HEX_DIGITS[k] as nat == c
  {
    if 0x30 <= c <= 0x39 {
      assert HEX_DIGITS[c - 0x30] as nat == c;
    } else if 0x61 <= c <= 0x66 {
      assert HEX_DIGITS[c - 0x61 + 10] as nat == c;
    } else if 0x41 <= c <= 0x46 {
      assert HEX_DIGITS[c - 0x41 + 16] as nat == c;
    }
  }

  /** `filter(not '-').map(to_ascii_uppercase)` */
  function Normal(s: Text): Text {
    if s == [] then []
    else (if s[0] == DASH then [] else [Upper(s[0])]) + Normal(s[1..])
  }

  predicate SerialMatches(left: Text, right: Text) {
    Normal(left) == Normal(right)
  }

  lemma {:induction false} NormalAppend(a: Text, b: Text)
    ensures Normal(a + b) == Normal(a) + Normal(b)
  {
    if a == [] {
      assert a + b == b;
    } else {
      Uncons(a, b);
      NormalAppend(a[1..], b);
      var head: Text := if a[0] == DASH then [] else [Upper(a[0])];
      Assoc(head, Normal(a[1..]), Normal(b));
    }
  }

  // ------------------------------------------------------------------ The C loop

  /** The bytes of a NUL-terminated buffer before its first NUL. */
  function CString(buf: Text): (s: Text)
    requires 0 in buf
    ensures |s| < |buf| && s == buf[..|s|] && buf[|s|] == 0 && 0 !in s
  {
    if buf[0] == 0 then [] else
    assert 0 in buf[1..];
    [buf[0]] + CString(buf[1..])
  }

  predicate Terminated(p: Option<Text>) {
    p.Some? ==> 0 in p.value
  }

  lemma SkipDash(s: Text, i: nat)
    requires i < |s| && s[i] == DASH
    ensures Normal(s[i..]) == Normal(s[i + 1..])
  {
  }

  lemma TakeChar(s: Text, i: nat)
    requires i < |s| && s[i] != DASH
    ensures Normal(s[i..]) == [Upper(s[i])] + Normal(s[i + 1..])
  {
  }

  lemma HeadsDecide(x: nat, a: Text, y: nat, b: Text)
    ensures [x] + a == [y] + b <==> x == y && a == b
  {
    if [x] + a == [y] + b {
      assert ([x] + a)[0] == ([y] + b)[0];
      assert ([x] + a)[1..] == a && ([y] + b)[1..] == b;
    }
  }

  /** The index of the next byte of `s` from `i` on that is not a dash, or the terminator's. */
  method SkipDashes(buf: Text, start: nat) returns (i: nat)
    requires 0 in buf && start <= |CString(buf)|
    ensures start <= i <= |CString(buf)| && buf[i] != DASH
    ensures Normal(CString(buf)[i..]) == Normal(CString(buf)[start..])
  {
    i := start;
    while buf[i] == DASH
      invariant start <= i <= |CString(buf)|
      invariant Normal(CString(buf)[i..]) == Normal(CString(buf)[start..])
      decreases |CString(buf)| - i
    {
      SkipDash(CString(buf), i);
      i := i + 1;
    }
  }

  /** `serial_equal` on possibly null, NUL-terminated strings: it ends, and never reads past a terminator. */
  method SerialEqual(left: Option<Text>, right: Option<Text>) returns (equal: bool)
    requires Terminated(left) && Terminated(right)
    ensures equal <==> left.Some? && right.Some? && SerialMatches(CString(left.value), CString(right.value))
  {
    if left.None? || right.None? {
      return false;
    }
    var a, b := left.value, right.value;
    ghost var s, t := CString(a), CString(b);
    var i, j := 0, 0;
    while true
      invariant i <= |s| && j <= |t|
      invariant Normal(s[i..]) == Normal(t[j..]) <==> SerialMatches(s, t)
      decreases |s| - i
    {
      i := SkipDashes(a, i);
      j := SkipDashes(b, j);
      var l, r := Upper(a[i]), Upper(b[j]);
      CompareHeads(s, i, t, j);
      if l != r {
        return false;
      }
      if l == 0 {
        return true;
      }
      i, j := i + 1, j + 1;
    }
  }

  /** What the bytes under the two pointers, upper-cased, decide about the rest; a terminator reads as 0. */
  lemma CompareHeads(s: Text, i: nat, t: Text, j: nat)
    requires i <= |s| && j <= |t| && 0 !in s && 0 !in t
    requires (i < |s| ==> s[i] != DASH) && (j < |t| ==> t[j] != DASH)
    ensures var l := if i < |s| then Upper(s[i]) else 0; var r := if j < |t| then Upper(t[j]) else 0;
            && (l != r ==> Normal(s[i..]) != Normal(t[j..]))
            && (l == r == 0 ==> i == |s| && j == |t| && Normal(s[i..]) == Normal(t[j..]))
            && (l == r != 0 ==> i < |s| && j < |t|)
            && (l == r != 0 ==> (Normal(s[i..]) == Normal(t[j..]) <==> Normal(s[i + 1..]) == Normal(t[j + 1..])))
  {
    if i < |s| {
      TakeChar(s, i);
      assert s[i] in s;
    }
    if j < |t| {
      TakeChar(t, j);
      assert t[j] in t;
    }
    if i < |s| && j < |t| {
      HeadsDecide(Upper(s[i]), Normal(s[i + 1..]), Upper(t[j]), Normal(t[j + 1..]));
    }
  }

  // ------------------------------------------------------------------ UTF-8

  predicate Scalar(c: nat) {
    c < 0x11_0000
  }

  predicate IsText(s: Text) {
    forall i :: 0 <= i < |s| ==> Scalar(s[i])
  }

  function Encode(c: nat): (b: Text)
    requires Scalar(c)
    ensures |b| > 0
  {
    var high := c / 0x40;
    if c < 0x80 then [c]
    else if c < 0x800 then [0xC0 + high, 0x80 + c % 0x40]
    else if c < 0x1_0000 then [0xE0 + high / 0x40, 0x80 + high % 0x40, 0x80 + c % 0x40]
    else [0xF0 + high / 0x40 / 0x40, 0x80 + high / 0x40 % 0x40, 0x80 + high % 0x40, 0x80 + c % 0x40]
  }

  function Utf8(s: Text): Text
    requires IsText(s)
  {
    if s == [] then [] else Encode(s[0]) + Utf8(s[1..])
  }

  /** Dashes and ASCII letters never occur inside a longer encoding. */
  lemma NormalEncode(c: nat)
    requires Scalar(c)
    ensures Scalar(Upper(c))
    ensures Normal(Encode(c)) == if c == DASH then [] else Encode(Upper(c))
  {
    var b := Encode(c);
    if c >= 0x80 {
      HighBytesStay(b);
    } else {
      assert b[1..] == [];
    }
  }

  lemma {:induction false} HighBytesStay(b: Text)
    requires forall i :: 0 <= i < |b| ==> b[i] >= 0x80
    ensures Normal(b) == b
  {
    if b != [] {
      HighBytesStay(b[1..]);
      assert b == [b[0]] + b[1..];
    }
  }

  lemma {:induction false} NormalUtf8(s: Text)
    requires IsText(s)
    ensures IsText(Normal(s)) && Normal(Utf8(s)) == Utf8(Normal(s))
  {
    if s != [] {
      NormalUtf8(s[1..]);
      NormalEncode(s[0]);
      NormalAppend(Encode(s[0]), Utf8(s[1..]));
      if s[0] != DASH {
        assert Normal(s)[1..] == Normal(s[1..]);
      } else {
        assert Normal(s) == Normal(s[1..]);
      }
    }
  }

  /** How many bytes the encoding starting with byte `first` has. */
  function Width(first: nat): nat {
    if first < 0xC0 then 1 else if first < 0xE0 then 2 else if first < 0xF0 then 3 else 4
  }

  function Decode(b: Text): int
    requires |b| > 0
  {
    if |b| == 1 then b[0]
    else if |b| == 2 then Continue(b[0] as int - 0xC0, b[1])
    else if |b| == 3 then Continue(Continue(b[0] as int - 0xE0, b[1]), b[2])
    else if |b| == 4 then Continue(Continue(Continue(b[0] as int - 0xF0, b[1]), b[2]), b[3])
    else 0
  }

  /** One continuation byte adds six bits. */
  function Continue(high: int, b: nat): int {
    high * 0x40 + (b as int - 0x80)
  }

  lemma EncodeShape(c: nat)
    requires Scalar(c)
    ensures Width(Encode(c)[0]) == |Encode(c)| && Decode(Encode(c)) == c
  {
  }

  lemma {:induction false} Utf8Injective(s: Text, t: Text)
    requires IsText(s) && IsText(t) && Utf8(s) == Utf8(t)
    ensures s == t
  {
    if s != [] && t != [] {
      var a, b := Encode(s[0]), Encode(t[0]);
      EncodeShape(s[0]);
      EncodeShape(t[0]);
      assert Utf8(s)[0] == a[0] && Utf8(t)[0] == b[0];
      assert a == Utf8(s)[..|a|] && b == Utf8(t)[..|b|];
      assert Utf8(s[1..]) == Utf8(s)[|a|..] && Utf8(t[1..]) == Utf8(t)[|b|..];
      Utf8Injective(s[1..], t[1..]);
      assert s == [s[0]] + s[1..] && t == [t[0]] + t[1..];
    }
  }

  /** For all strings, non-ASCII ones included, comparing UTF-8 bytes as C does is comparing characters as Rust does. */
  lemma BytesAgreeWithChars(left: Text, right: Text)
    requires IsText(left) && IsText(right)
    ensures SerialMatches(Utf8(left), Utf8(right)) <==> SerialMatches(left, right)
  {
    NormalUtf8(left);
    NormalUtf8(right);
    if Utf8(Normal(left)) == Utf8(Normal(right)) {
      Utf8Injective(Normal(left), Normal(right));
    }
  }

  /** What C sees of a text: everything up to its first NUL. */
  function BeforeNul(s: Text): (t: Text)
    ensures 0 !in s ==> t == s
  {
    CString(s + [0])
  }

  lemma {:induction false} NonZeroPrefix(b: Text, rest: Text)
    requires 0 in rest && forall i :: 0 <= i < |b| ==> b[i] != 0
    ensures 0 in b + rest && CString(b + rest) == b + CString(rest)
  {
    if b == [] {
      assert b + rest == rest && b + CString(rest) == CString(rest);
    } else {
      NonZeroPrefix(b[1..], rest);
      Uncons(b, rest);
      Uncons(b, CString(rest));
      assert (b + rest)[0] == b[0] && 0 in (b + rest)[1..];
    }
  }

  /** Encoding and cutting at the first NUL commute: no longer encoding contains a zero byte. */
  lemma {:induction false} Utf8BeforeNul(s: Text)
    requires IsText(s)
    ensures IsText(BeforeNul(s)) && 0 in Utf8(s) + [0] && CString(Utf8(s) + [0]) == Utf8(BeforeNul(s))
  {
    if s == [] {
      assert Utf8(s) + [0] == [0] && s + [0] == [0];
    } else {
      Utf8BeforeNul(s[1..]);
      Uncons(s, [0]);
      Assoc(Encode(s[0]), Utf8(s[1..]), [0]);
      if s[0] == 0 {
        assert (Utf8(s) + [0])[0] == 0;
      } else {
        NonZeroPrefix(Encode(s[0]), Utf8(s[1..]) + [0]);
        TextBeforeNul(s);
      }
    }
  }

  lemma TextBeforeNul(s: Text)
    requires s != [] && s[0] != 0
    ensures BeforeNul(s) == [s[0]] + BeforeNul(s[1..])
  {
    Uncons(s, [0]);
  }

  /**
   * The C comparison of two texts handed over as NUL-terminated UTF-8 is the Rust comparison of what precedes their
   * first NUL.
   */
  lemma {:induction false} CAgreesWithRust(left: Text, right: Text)
    requires IsText(left) && IsText(right)
    ensures Terminated(Some(Utf8(left) + [0])) && Terminated(Some(Utf8(right) + [0]))
    ensures SerialMatches(CString(Utf8(left) + [0]), CString(Utf8(right) + [0])) <==>
            SerialMatches(BeforeNul(left), BeforeNul(right))
  {
    Utf8BeforeNul(left);
    Utf8BeforeNul(right);
    BytesAgreeWithChars(BeforeNul(left), BeforeNul(right));
  }

  // ------------------------------------------------------------------ UDIDs

  predicate IsHexDigit(c: nat) {
    0x30 <= c <= 0x39 || 0x41 <= c <= 0x46 || 0x61 <= c <= 0x66
  }

  function Lower(c: nat): nat {
    if 0x41 <= c <= 0x5A then c + 0x20 else c
  }

  /** `filter(is_ascii_hexdigit).flat_map(to_lowercase)` */
  function HexLower(s: Text): Text {
    if s == [] then []
    else (if IsHexDigit(s[0]) then [Lower(s[0])] else []) + HexLower(s[1..])
  }

  predicate SameUdid(left: Text, right: Text) {
    HexLower(left) == HexLower(right)
  }

  lemma {:induction false} NormalKeepsHex(s: Text)
    ensures HexLower(Normal(s)) == HexLower(s)
  {
    if s != [] {
      NormalKeepsHex(s[1..]);
      if s[0] != DASH {
        assert Normal(s)[1..] == Normal(s[1..]);
      } else {
        assert Normal(s) == Normal(s[1..]);
      }
    }
  }

  /** A serial match is always a UDID match. */
  lemma MatchImpliesSameUdid(left: Text, right: Text)
    requires SerialMatches(left, right)
    ensures SameUdid(left, right)
  {
    NormalKeepsHex(left);
    NormalKeepsHex(right);
  }

  predicate HexAndDashes(s: Text) {
    forall i :: 0 <= i < |s| ==> s[i] == DASH || IsHexDigit(s[i])
  }

  function LowerAll(s: Text): Text {
    if s == [] then [] else [Lower(s[0])] + LowerAll(s[1..])
  }

  lemma {:induction false} HexIsNormal(s: Text)
    requires HexAndDashes(s)
    ensures HexLower(s) == LowerAll(Normal(s))
    ensures forall i :: 0 <= i < |Normal(s)| ==> IsHexDigit(Normal(s)[i]) && Normal(s)[i] < 0x61
  {
    if s != [] {
      HexIsNormal(s[1..]);
      if s[0] != DASH {
        assert Normal(s)[1..] == Normal(s[1..]);
      } else {
        assert Normal(s) == Normal(s[1..]);
      }
    }
  }

  lemma {:induction false} LowerInjective(s: Text, t: Text)
    requires forall i :: 0 <= i < |s| ==> s[i] < 0x5B
    requires forall i :: 0 <= i < |t| ==> t[i] < 0x5B
    requires LowerAll(s) == LowerAll(t)
    ensures s == t
  {
    if s != [] && t != [] {
      HeadsDecide(Lower(s[0]), LowerAll(s[1..]), Lower(t[0]), LowerAll(t[1..]));
      LowerInjective(s[1..], t[1..]);
      assert s == [s[0]] + s[1..] && t == [t[0]] + t[1..];
    }
  }

  /** On strings of hex digits and dashes the two comparisons are the same. */
  lemma HexSerialsAgree(left: Text, right: Text)
    requires HexAndDashes(left) && HexAndDashes(right)
    ensures SerialMatches(left, right) <==> SameUdid(left, right)
  {
    HexIsNormal(left);
    HexIsNormal(right);
    if SameUdid(left, right) {
      LowerInjective(Normal(left), Normal(right));
    }
  }

  lemma {:induction false} HexAppend(a: Text, b: Text)
    ensures HexLower(a + b) == HexLower(a) + HexLower(b)
  {
    if a == [] {
      assert a + b == b;
    } else {
      Uncons(a, b);
      HexAppend(a[1..], b);
      var head: Text := if IsHexDigit(a[0]) then [Lower(a[0])] else [];
      Assoc(head, HexLower(a[1..]), HexLower(b));
    }
  }

  /** On others they are not: any other character anywhere changes the serial but not the UDID. */
  lemma {:induction false} UdidIgnoresOtherLetters(a: Text, c: nat, b: Text)
    requires c != DASH && !IsHexDigit(c)
    ensures SameUdid(a + [c] + b, a + b) && !SerialMatches(a + [c] + b, a + b)
  {
    OneCharacter(c);
    HexAppend(a + [c], b);
    HexAppend(a, [c]);
    HexAppend(a, b);
    NormalAppend(a + [c], b);
    NormalAppend(a, [c]);
    NormalAppend(a, b);
    assert HexLower(a) + [] == HexLower(a);
    assert |Normal(a + [c] + b)| == |Normal(a + b)| + 1;
  }

  lemma OneCharacter(c: nat)
    requires c != DASH && !IsHexDigit(c)
    ensures HexLower([c]) == [] && |Normal([c])| == 1
  {
    assert [c][1..] == [];
  }
}
