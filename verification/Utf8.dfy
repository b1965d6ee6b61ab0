/** Strings are byte sequences, each byte written as a character below 256. This
    module says which of them are valid UTF-8 and what the JSON encoder makes of the rest. */
module Utf8 {
  predicate InRange(c: char, lo: int, hi: int) {
    lo <= c as int <= hi
  }

  predicate Continues(s: string, k: nat) {
    k < |s| && InRange(s[k], 0x80, 0xBF)
  }

  /** The length of the rune s begins with, or 0 if its first byte begins none. */
  function RuneLen(s: string): (n: nat)
    requires s != ""
    ensures n <= |s|
  {
    var b := s[0] as int;
    if b < 0x80 then 1
    else if b < 0xC2 then 0
    else if b < 0xE0 then (if Continues(s, 1) then 2 else 0)
    else if b < 0xF0 then
      var lo := if b == 0xE0 then 0xA0 else 0x80;
      var hi := if b == 0xED then 0x9F else 0xBF;
      if 1 < |s| && InRange(s[1], lo, hi) && Continues(s, 2) then 3 else 0
    else if b <= 0xF4 then
      var lo := if b == 0xF0 then 0x90 else 0x80;
      var hi := if b == 0xF4 then 0x8F else 0xBF;
      if 1 < |s| && InRange(s[1], lo, hi) && Continues(s, 2) && Continues(s, 3) then 4 else 0
    else 0
  }

  predicate Valid(s: string)
    decreases |s|
  {
    s == "" || (0 < RuneLen(s) && Valid(s[RuneLen(s)..]))
  }

  const REPLACEMENT := "\U{0000EF}\U{0000BF}\U{0000BD}"

  /** Every byte that begins no rune becomes U+FFFD. */
  function Coerce(s: string): string
    decreases |s|
  {
    if s == "" then ""
    else if RuneLen(s) == 0 then REPLACEMENT + Coerce(s[1..])
    else s[..RuneLen(s)] + Coerce(s[RuneLen(s)..])
  }

  lemma {:induction false} CoerceLength(s: string)
    ensures |s| <= |Coerce(s)| && (|Coerce(s)| == |s| ==> Valid(s))
    decreases |s|
  {
    if s != "" {
      CoerceLength(if RuneLen(s) == 0 then s[1..] else s[RuneLen(s)..]);
    }
  }

  lemma {:induction false} ValidIsKept(s: string)
    requires Valid(s)
    ensures Coerce(s) == s
    decreases |s|
  {
    if s != "" {
      ValidIsKept(s[RuneLen(s)..]);
    }
  }

  /** Encoding keeps a string exactly when it is valid UTF-8. */
  lemma CoerceKeepsExactlyValid(s: string)
    ensures Coerce(s) == s <==> Valid(s)
  {
    CoerceLength(s);
    if Valid(s) {
      ValidIsKept(s);
    }
  }

  predicate Ascii(s: string) {
    forall i | 0 <= i < |s| :: s[i] as int < 0x80
  }

  lemma {:induction false} AsciiIsValid(s: string)
    requires Ascii(s)
    ensures Valid(s)
    decreases |s|
  {
    if s != "" {
      AsciiIsValid(s[1..]);
    }
  }

  // ---- The encoding itself, as section 3 of RFC 3629 gives it ----

  ghost predicate Scalar(code: int) {
    0 <= code <= 0x10FFFF && !(0xD800 <= code <= 0xDFFF)
  }

  ghost function Encoded(code: int): string
    requires Scalar(code)
  {
    if code <= 0x7F then [code as char]
    else if code <= 0x7FF then [(0xC0 + code / 0x40) as char, (0x80 + code % 0x40) as char]
    else if code <= 0xFFFF then
      [(0xE0 + code / 0x1000) as char, (0x80 + code / 0x40 % 0x40) as char, (0x80 + code % 0x40) as char]
    else
      [(0xF0 + code / 0x40000) as char, (0x80 + code / 0x1000 % 0x40) as char, (0x80 + code / 0x40 % 0x40) as char,
       (0x80 + code % 0x40) as char]
  }

  ghost predicate Begins(s: string, code: int) {
    Scalar(code) && Encoded(code) <= s
  }

  ghost predicate AllScalars(codes: seq<int>) {
    forall i | 0 <= i < |codes| :: Scalar(codes[i])
  }

  ghost function EncodedAll(codes: seq<int>): string
    requires AllScalars(codes)
  {
    if codes == [] then "" else Encoded(codes[0]) + EncodedAll(codes[1..])
  }

  /** A rune begins where some code point's encoding does, and is as long. */
  lemma {:induction false} RuneIsEncoded(s: string, code: int)
    requires s != "" && Begins(s, code)
    ensures RuneLen(s) == |Encoded(code)|
  {
    var e := Encoded(code);
    assert e[0] == s[0];
    assert forall k | 0 <= k < |e| :: e[k] == s[k];
  }

  lemma {:induction false} RuneDecodes(s: string) returns (code: int)
    requires s != "" && 0 < RuneLen(s)
    ensures Begins(s, code) && |Encoded(code)| == RuneLen(s)
  {
    var n := RuneLen(s);
    var b := s[0] as int;
    if n == 1 {
      code := b;
    } else if n == 2 {
      code := (b - 0xC0) * 0x40 + (s[1] as int - 0x80);
    } else if n == 3 {
      code := ThreeBytes(b, s[1] as int, s[2] as int);
    } else {
      code := FourBytes(b, s[1] as int, s[2] as int, s[3] as int);
    }
    assert Encoded(code) == s[..n];
  }

  lemma ThreeBytes(a: int, b: int, c: int) returns (code: int)
    requires 0xE0 <= a <= 0xEF && 0x80 <= b <= 0xBF && 0x80 <= c <= 0xBF
    requires a == 0xE0 ==> 0xA0 <= b
    requires a == 0xED ==> b <= 0x9F
    ensures Scalar(code) && 0x7FF < code <= 0xFFFF
    ensures a == 0xE0 + code / 0x1000 && b == 0x80 + code / 0x40 % 0x40 && c == 0x80 + code % 0x40
  {
    code := (a - 0xE0) * 0x1000 + (b - 0x80) * 0x40 + (c - 0x80);
    assert code / 0x40 == (a - 0xE0) * 0x40 + (b - 0x80);
  }

  lemma FourBytes(a: int, b: int, c: int, d: int) returns (code: int)
    requires 0xF0 <= a <= 0xF4 && 0x80 <= b <= 0xBF && 0x80 <= c <= 0xBF && 0x80 <= d <= 0xBF
    requires a == 0xF0 ==> 0x90 <= b
    requires a == 0xF4 ==> b <= 0x8F
    ensures Scalar(code) && 0xFFFF < code
    ensures a == 0xF0 + code / 0x40000 && b == 0x80 + code / 0x1000 % 0x40
    ensures c == 0x80 + code / 0x40 % 0x40 && d == 0x80 + code % 0x40
  {
    code := (a - 0xF0) * 0x40000 + (b - 0x80) * 0x1000 + (c - 0x80) * 0x40 + (d - 0x80);
    assert code / 0x40 == (a - 0xF0) * 0x1000 + (b - 0x80) * 0x40 + (c - 0x80);
    assert code / 0x1000 == (a - 0xF0) * 0x40 + (b - 0x80);
  }

  /** Valid strings are the encodings of code points, and nothing else is. */
  lemma {:induction false} ValidMeans(s: string)
    ensures Valid(s) <==> exists codes :: AllScalars(codes) && EncodedAll(codes) == s
  {
    if Valid(s) {
      var codes := ValidDecodes(s);
    }
    if codes :| AllScalars(codes) && EncodedAll(codes) == s {
      EncodedIsValid(codes);
    }
  }

  lemma {:induction false} ValidDecodes(s: string) returns (codes: seq<int>)
    requires Valid(s)
    ensures AllScalars(codes) && EncodedAll(codes) == s
    decreases |s|
  {
    codes := [];
    if s != "" {
      var code := RuneDecodes(s);
      var n := RuneLen(s);
      hide RuneLen, Encoded;
      var rest := ValidDecodes(s[n..]);
      codes := [code] + rest;
      assert codes[1..] == rest;
      assert s == s[..n] + s[n..] && Encoded(code) == s[..n];
    }
  }

  lemma {:induction false} EncodedIsValid(codes: seq<int>)
    requires AllScalars(codes)
    ensures Valid(EncodedAll(codes))
  {
    if codes != [] {
      EncodedIsValid(codes[1..]);
      var e, s := Encoded(codes[0]), EncodedAll(codes);
      assert e != "";
      RuneIsEncoded(s, codes[0]);
      hide RuneLen, Encoded;
      assert s[|e|..] == EncodedAll(codes[1..]);
    }
  }

  /** Coercion keeps every encoded code point, and reads on after it. */
  lemma {:induction false} CoerceKeepsRunes(code: int, rest: string)
    requires Scalar(code)
    ensures Coerce(Encoded(code) + rest) == Encoded(code) + Coerce(rest)
  {
    var e := Encoded(code);
    assert e != "";
    RuneIsEncoded(e + rest, code);
    hide RuneLen, Encoded;
    assert (e + rest)[..|e|] == e && (e + rest)[|e|..] == rest;
  }

  /** A byte where no code point's encoding begins becomes U+FFFD, alone. */
  lemma {:induction false} CoerceReplaces(s: string)
    requires s != "" && forall code :: !Begins(s, code)
    ensures Coerce(s) == Encoded(0xFFFD) + Coerce(s[1..])
  {
    assert Encoded(0xFFFD) == REPLACEMENT;
    if 0 < RuneLen(s) {
      var code := RuneDecodes(s);
    }
  }
}
