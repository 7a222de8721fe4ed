/** The few string operations of Go's `strings` package the proxy needs, on ASCII text
    held as bytes. */
module Text {
  import opened Bits

  function Ascii(s: string): (t: seq<byte>)
    requires forall i :: 0 <= i < |s| ==> s[i] as int < 128
    ensures |t| == |s|
  {
    if s == [] then [] else [s[0] as int] + Ascii(s[1..])
  }

  lemma {:induction false} AsciiBytes(s: string)
    requires forall i :: 0 <= i < |s| ==> s[i] as int < 128
    ensures forall i :: 0 <= i < |s| ==> Ascii(s)[i] == s[i] as int
  {
    if s != [] {
      AsciiBytes(s[1..]);
    }
  }

  predicate IsSpace(b: byte) {
    9 <= b <= 13 || b == 32
  }

  function TrimLeft(s: seq<byte>): seq<byte> {
    if s != [] && IsSpace(s[0]) then TrimLeft(s[1..]) else s
  }

  function TrimRight(s: seq<byte>): seq<byte> {
    if s != [] && IsSpace(s[|s| - 1]) then TrimRight(s[..|s| - 1]) else s
  }

  function TrimSpace(s: seq<byte>): seq<byte> {
    TrimRight(TrimLeft(s))
  }

  function LowerByte(b: byte): byte {
    if 65 <= b <= 90 then b + 32 else b
  }

  function ToLower(s: seq<byte>): (t: seq<byte>)
    ensures |t| == |s|
  {
    seq(|s|, i requires 0 <= i < |s| => LowerByte(s[i]))
  }

  // ------------------------------------------------------------ trimming and lower-casing

  predicate Trimmed(s: seq<byte>) {
    s == [] || (!IsSpace(s[0]) && !IsSpace(s[|s| - 1]))
  }

  lemma {:induction false} TrimLeftShape(s: seq<byte>)
    ensures var t := TrimLeft(s); |t| <= |s| && t == s[|s| - |t|..] && (t == [] || !IsSpace(t[0]))
  {
    if s != [] && IsSpace(s[0]) {
      TrimLeftShape(s[1..]);
      assert s[1..][|s| - 1 - |TrimLeft(s)|..] == s[|s| - |TrimLeft(s)|..];
    }
  }

  lemma {:induction false} TrimRightShape(s: seq<byte>)
    ensures var t := TrimRight(s); t <= s && (t == [] || !IsSpace(t[|t| - 1]))
  {
    if s != [] && IsSpace(s[|s| - 1]) {
      TrimRightShape(s[..|s| - 1]);
    }
  }

  lemma TrimSpaceTrims(s: seq<byte>)
    ensures Trimmed(TrimSpace(s))
  {
    TrimLeftShape(s);
    TrimRightShape(TrimLeft(s));
  }

  lemma TrimSpaceFixed(s: seq<byte>)
    requires Trimmed(s)
    ensures TrimSpace(s) == s
  {
  }

  // Lower-casing after trimming is a normal form.
  lemma NormalizeIdempotent(s: seq<byte>)
    ensures ToLower(TrimSpace(ToLower(TrimSpace(s)))) == ToLower(TrimSpace(s))
  {
    var t := TrimSpace(s);
    TrimSpaceTrims(s);
    assert t != [] ==> ToLower(t)[0] == LowerByte(t[0]) && ToLower(t)[|t| - 1] == LowerByte(t[|t| - 1]);
    TrimSpaceFixed(ToLower(t));
    assert ToLower(ToLower(t)) == ToLower(t);
  }

  // ------------------------------------------------------------- what this means in bytes

  // The same text but for the case of its ASCII letters.
  ghost predicate SameLetters(a: seq<byte>, b: seq<byte>) {
    |a| == |b| && forall i :: 0 <= i < |a| ==> SameLetter(a[i], b[i])
  }

  predicate SameLetter(x: byte, y: byte) {
    x == y || (65 <= x <= 90 && y == x + 32) || (65 <= y <= 90 && x == y + 32)
  }

  ghost predicate NoCapitals(s: seq<byte>) {
    forall i :: 0 <= i < |s| ==> !(65 <= s[i] <= 90)
  }

  // White space: tab, line feed, vertical tab, form feed, carriage return and space.
  predicate Blank(s: seq<byte>) {
    forall i :: 0 <= i < |s| ==> s[i] in {9, 10, 11, 12, 13, 32}
  }

  // Capitals become small letters, every other byte is kept.
  lemma LowerBytes(s: seq<byte>)
    ensures |ToLower(s)| == |s| && NoCapitals(ToLower(s)) && SameLetters(s, ToLower(s))
    ensures forall i :: 0 <= i < |s| && !(65 <= s[i] <= 90) ==> ToLower(s)[i] == s[i]
  {
  }

  lemma CaseFolds(a: seq<byte>, b: seq<byte>)
    requires SameLetters(a, b)
    ensures ToLower(a) == ToLower(b)
  {
    assert forall i :: 0 <= i < |a| ==> SameLetter(a[i], b[i]) && ToLower(a)[i] == ToLower(b)[i];
  }

  // Trimming takes white space off both ends, and no more.
  lemma TrimSpaceTakes(before: seq<byte>, s: seq<byte>, after: seq<byte>)
    requires Blank(before) && Blank(after)
    requires s != [] ==> !Blank([s[0]]) && !Blank([s[|s| - 1]])
    ensures TrimSpace(before + s + after) == s
  {
    assert s != [] ==> s[0] in [s[0]] && s[|s| - 1] in [s[|s| - 1]];
    if s == [] {
      assert before + s + after == before + after;
      TrimBlank(before + after);
    } else {
      assert before + s + after == before + (s + after);
      TrimLeftTakes(before, s + after);
      TrimRightTakes(s, after);
    }
  }

  lemma {:induction false} TrimBlank(s: seq<byte>)
    requires Blank(s)
    ensures TrimSpace(s) == []
  {
    if s != [] {
      assert s[0] in s;
      TrimBlank(s[1..]);
    }
  }

  lemma {:induction false} TrimLeftTakes(a: seq<byte>, s: seq<byte>)
    requires Blank(a) && s != [] && s[0] !in {9, 10, 11, 12, 13, 32}
    ensures TrimLeft(a + s) == s
  {
    if a == [] {
      assert a + s == s;
    } else {
      assert a[0] in a && (a + s)[1..] == a[1..] + s;
      TrimLeftTakes(a[1..], s);
    }
  }

  lemma {:induction false} TrimRightTakes(s: seq<byte>, a: seq<byte>)
    requires Blank(a) && s != [] && s[|s| - 1] !in {9, 10, 11, 12, 13, 32}
    ensures TrimRight(s + a) == s
  {
    if a == [] {
      assert s + a == s;
    } else {
      var u := s + a;
      assert a[|a| - 1] in a && u[..|u| - 1] == s + a[..|a| - 1];
      TrimRightTakes(s, a[..|a| - 1]);
    }
  }

  lemma {:induction false} TrimLeftFolds(a: seq<byte>, b: seq<byte>)
    requires SameLetters(a, b)
    ensures SameLetters(TrimLeft(a), TrimLeft(b))
  {
    if a != [] {
      assert SameLetter(a[0], b[0]);
      if IsSpace(a[0]) {
        TrimLeftFolds(a[1..], b[1..]);
      }
    }
  }

  lemma {:induction false} TrimRightFolds(a: seq<byte>, b: seq<byte>)
    requires SameLetters(a, b)
    ensures SameLetters(TrimRight(a), TrimRight(b))
  {
    if a != [] {
      var n := |a| - 1;
      assert SameLetter(a[n], b[n]);
      if IsSpace(a[n]) {
        TrimRightFolds(a[..n], b[..n]);
      }
    }
  }

  lemma TrimSpaceFolds(a: seq<byte>, b: seq<byte>)
    requires SameLetters(a, b)
    ensures SameLetters(TrimSpace(a), TrimSpace(b))
  {
    hide SameLetters;
    TrimLeftFolds(a, b);
    TrimRightFolds(TrimLeft(a), TrimLeft(b));
  }
}
