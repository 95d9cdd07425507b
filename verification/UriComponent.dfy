/**
 `encodeURIComponent` and `decodeURIComponent` (percent-encoding as in section 2.1 of RFC 3986,
 octets as in section 3 of RFC 3629). A `char` is a Unicode scalar value, so strings with lone
 surrogates, on which `encodeURIComponent` throws, do not exist here.
 */
module UriComponent {
  import opened Options

  type Byte = b: int | 0 <= b < 256

  predicate IsAlphanumeric(c: char) {
    'A' <= c <= 'Z' || 'a' <= c <= 'z' || '0' <= c <= '9'
  }

  /** The characters that `encodeURIComponent` leaves alone. */
  predicate IsUnescaped(c: char) {
    IsAlphanumeric(c) || c in {'-', '_', '.', '!', '~', '*', '\'', '(', ')'}
  }

  function HexDigit(n: int): (c: char)
    requires 0 <= n < 16
    ensures '0' <= c <= '9' || 'A' <= c <= 'F'
  {
    if n < 10 then ('0' as int + n) as char else ('A' as int + n - 10) as char
  }

  function HexValue(c: char): Option<int> {
    if '0' <= c <= '9' then Some(c as int - '0' as int)
    else if 'A' <= c <= 'F' then Some(c as int - 'A' as int + 10)
    else if 'a' <= c <= 'f' then Some(c as int - 'a' as int + 10)
    else None
  }

  function Escape(b: Byte): string {
    ['%', HexDigit(b / 16), HexDigit(b % 16)]
  }

  function EscapeAll(bytes: seq<Byte>): string {
    if bytes == [] then "" else Escape(bytes[0]) + EscapeAll(bytes[1..])
  }

  /** The UTF-8 octets of a scalar value. */
  function Utf8(c: char): (bytes: seq<Byte>)
    ensures 1 <= |bytes| <= 4
  {
    var n := c as int;
    if n < 0x80 then [n]
    else if n < 0x800 then [0xC0 + n / 64, 0x80 + n % 64]
    else if n < 0x1_0000 then [0xE0 + n / 4096, 0x80 + n / 64 % 64, 0x80 + n % 64]
    else [0xF0 + n / 262144, 0x80 + n / 4096 % 64, 0x80 + n / 64 % 64, 0x80 + n % 64]
  }

  function EncodeChar(c: char): (r: string)
    ensures r != ""
  {
    if IsUnescaped(c) then [c] else EscapeAll(Utf8(c))
  }

  function Encode(s: string): string {
    if s == "" then "" else EncodeChar(s[0]) + Encode(s[1..])
  }

  // ----- decoding

  /** The octet written at the start of `s`, if there is one. */
  function ReadEscape(s: string): Option<Byte> {
    if |s| < 3 || s[0] != '%' || HexValue(s[1]).None? || HexValue(s[2]).None? then None
    else Some(HexValue(s[1]).value * 16 + HexValue(s[2]).value)
  }

  /** The number of octets announced by the first one; zero if it cannot come first. */
  function SequenceLength(b: Byte): (n: nat)
    ensures n <= 4
  {
    if b < 0x80 then 1
    else if 0xC0 <= b < 0xE0 then 2
    else if 0xE0 <= b < 0xF0 then 3
    else if 0xF0 <= b < 0xF8 then 4
    else 0
  }

  function LeadBits(b: Byte, n: nat): int {
    if n == 1 then b else if n == 2 then b - 0xC0 else if n == 3 then b - 0xE0 else b - 0xF0
  }

  /** `n` continuation octets, folded into the value read so far. */
  function ReadContinuation(s: string, n: nat, value: int): Option<int>
    decreases n
  {
    if n == 0 then Some(value)
    else
      var b := ReadEscape(s);
      if b.None? || !(0x80 <= b.value < 0xC0) then None
      else ReadContinuation(s[3..], n - 1, value * 64 + b.value - 0x80)
  }

  /** Shortest form only, no surrogates, nothing beyond the last code point. */
  predicate IsWellFormed(value: int, n: nat) {
    && (n == 1 ==> 0 <= value < 0x80)
    && (n == 2 ==> 0x80 <= value < 0x800)
    && (n == 3 ==> 0x800 <= value < 0x1_0000 && !(0xD800 <= value < 0xE000))
    && (n == 4 ==> 0x1_0000 <= value < 0x11_0000)
  }

  /** One escaped character at the start of `s`, and how many octets it takes. */
  function ReadChar(s: string): (r: Option<(char, nat)>)
    ensures r.Some? ==> 1 <= r.value.1 <= 4
  {
    var b := ReadEscape(s);
    if b.None? then None
    else
      var n := SequenceLength(b.value);
      if n == 0 then None
      else
        var value := ReadContinuation(s[3..], n - 1, LeadBits(b.value, n));
        if value.None? || !IsWellFormed(value.value, n) then None else Some((value.value as char, n))
  }

  /** `None` where `decodeURIComponent` throws a URIError. */
  function Decode(s: string): Option<string> {
    if s == "" then Some("")
    else if s[0] != '%' then
      var rest := Decode(s[1..]);
      if rest.None? then None else Some([s[0]] + rest.value)
    else
      var first := ReadChar(s);
      if first.None? || |s| < 3 * first.value.1 then None
      else
        var rest := Decode(s[3 * first.value.1..]);
        if rest.None? then None else Some([first.value.0] + rest.value)
  }

  // ----- the round trip

  lemma ReadEscapeBack(b: Byte, rest: string)
    ensures ReadEscape(Escape(b) + rest) == Some(b)
    ensures (Escape(b) + rest)[3..] == rest
  {
  }

  lemma {:induction false} ReadContinuationBack(bytes: seq<Byte>, rest: string, value: int)
    requires forall i :: 0 <= i < |bytes| ==> 0x80 <= bytes[i] < 0xC0
    ensures ReadContinuation(EscapeAll(bytes) + rest, |bytes|, value) == Some(Fold(bytes, value))
  {
    if bytes != [] {
      assert EscapeAll(bytes) + rest == Escape(bytes[0]) + (EscapeAll(bytes[1..]) + rest);
      ReadEscapeBack(bytes[0], EscapeAll(bytes[1..]) + rest);
      ReadContinuationBack(bytes[1..], rest, value * 64 + bytes[0] - 0x80);
    }
  }

  function Fold(bytes: seq<Byte>, value: int): int {
    if bytes == [] then value else Fold(bytes[1..], value * 64 + bytes[0] - 0x80)
  }

  /** The octets of a character announce their number and fold back to its code point. */
  lemma Utf8Back(c: char)
    ensures var bytes := Utf8(c);
      && SequenceLength(bytes[0]) == |bytes|
      && (forall i :: 0 < i < |bytes| ==> 0x80 <= bytes[i] < 0xC0)
      && Fold(bytes[1..], LeadBits(bytes[0], |bytes|)) == c as int
      && IsWellFormed(c as int, |bytes|)
  {
    var n, bytes := c as int, Utf8(c);
    if |bytes| == 1 {
      assert bytes[1..] == [];
    } else if |bytes| == 2 {
      assert bytes[1..] == [bytes[1]];
      FoldOne(bytes[1], n / 64);
    } else if |bytes| == 3 {
      assert bytes[1..] == [bytes[1], bytes[2]];
      FoldTwo(bytes[1], bytes[2], n / 4096);
      SixBitGroups(n);
    } else {
      assert bytes[1..] == [bytes[1], bytes[2], bytes[3]];
      FoldThree(bytes[1], bytes[2], bytes[3], n / 262144);
      SixBitGroups(n);
      SixBitGroups(n / 64);
    }
  }

  /** Dropping six bits twice is dropping twelve. */
  lemma SixBitGroups(n: nat)
    ensures n / 4096 == n / 64 / 64 && n / 262144 == n / 64 / 4096
    ensures (n / 4096 * 64 + n / 64 % 64) * 64 + n % 64 == n
  {
  }

  lemma FoldOne(a: int, value: int)
    requires 0 <= a < 256
    ensures Fold([a], value) == value * 64 + a - 0x80
  {
  }

  lemma FoldTwo(a: int, b: int, value: int)
    requires 0 <= a < 256 && 0 <= b < 256
    ensures Fold([a, b], value) == (value * 64 + a - 0x80) * 64 + b - 0x80
  {
    assert [a, b][1..] == [b];
    FoldOne(b, value * 64 + a - 0x80);
  }

  lemma FoldThree(a: int, b: int, c: int, value: int)
    requires 0 <= a < 256 && 0 <= b < 256 && 0 <= c < 256
    ensures Fold([a, b, c], value) == ((value * 64 + a - 0x80) * 64 + b - 0x80) * 64 + c - 0x80
  {
    assert [a, b, c][1..] == [b, c];
    FoldTwo(b, c, value * 64 + a - 0x80);
  }

  lemma {:induction false} EscapeAllLength(bytes: seq<Byte>)
    ensures |EscapeAll(bytes)| == 3 * |bytes|
  {
    if bytes != [] {
      EscapeAllLength(bytes[1..]);
    }
  }

  lemma ReadCharBack(c: char, rest: string)
    ensures var bytes := Utf8(c);
      ReadChar(EscapeAll(bytes) + rest) == Some((c, |bytes|)) && (EscapeAll(bytes) + rest)[3 * |bytes|..] == rest
  {
    var bytes := Utf8(c);
    Utf8Back(c);
    var after := EscapeAll(bytes[1..]) + rest;
    assert EscapeAll(bytes) + rest == Escape(bytes[0]) + after;
    ReadEscapeBack(bytes[0], after);
    ReadContinuationBack(bytes[1..], rest, LeadBits(bytes[0], |bytes|));
    EscapeAllLength(bytes);
  }

  /** Decoding what was encoded gives every string back. */
  lemma {:induction false} DecodeEncode(s: string)
    ensures Decode(Encode(s)) == Some(s)
  {
    if s != "" {
      DecodeEncode(s[1..]);
      var c, rest := s[0], Encode(s[1..]);
      if IsUnescaped(c) {
        assert ([c] + rest)[1..] == rest;
      } else {
        ReadCharBack(c, rest);
        EscapeAllLength(Utf8(c));
        assert EscapeAll(Utf8(c))[0] == '%';
      }
      assert [c] + s[1..] == s;
    }
  }

  /** Encoded text holds none of the characters that delimit the parts of a URL. */
  predicate IsSafe(c: char) {
    IsUnescaped(c) || c == '%'
  }

  lemma {:induction false} EscapeAllIsSafe(bytes: seq<Byte>)
    ensures forall c <- EscapeAll(bytes) :: IsSafe(c)
  {
    if bytes != [] {
      EscapeAllIsSafe(bytes[1..]);
    }
  }

  lemma {:induction false} EncodeIsSafe(s: string)
    ensures forall c <- Encode(s) :: IsSafe(c)
  {
    if s != "" {
      EncodeIsSafe(s[1..]);
      EscapeAllIsSafe(Utf8(s[0]));
    }
  }

  // ----- text that is not changed, and text that is refused

  /** Letters, digits and nine marks are left alone. */
  lemma {:induction false} EncodeKeepsWords(s: string)
    requires forall c <- s :: 'A' <= c <= 'Z' || 'a' <= c <= 'z' || '0' <= c <= '9' || c in "-_.!~*'()"
    ensures Encode(s) == s
  {
    if s != "" {
      EncodeKeepsWords(s[1..]);
      assert s[0] in s && IsUnescaped(s[0]);
      assert [s[0]] + s[1..] == s;
    }
  }

  lemma {:induction false} DecodeKeepsPlain(s: string)
    requires '%' !in s
    ensures Decode(s) == Some(s)
  {
    if s != "" {
      DecodeKeepsPlain(s[1..]);
      assert s[0] in s && [s[0]] + s[1..] == s;
    }
  }

  lemma SameGroups(x: int, a: int, y: int, b: int)
    requires 0 <= a < 64 && 0 <= b < 64 && x * 64 + a == y * 64 + b
    ensures x == y && a == b
  {
  }

  /** Octets with the same announced number that fold to one value are the same. */
  lemma {:induction false} SameFold(a: seq<Byte>, value: int, b: seq<Byte>, value': int)
    requires |a| == |b|
    requires forall i :: 0 <= i < |a| ==> 0x80 <= a[i] < 0xC0 && 0x80 <= b[i] < 0xC0
    requires Fold(a, value) == Fold(b, value')
    ensures a == b && value == value'
  {
    if a != [] {
      SameFold(a[1..], value * 64 + a[0] - 0x80, b[1..], value' * 64 + b[0] - 0x80);
      SameGroups(value, a[0] - 0x80, value', b[0] - 0x80);
      assert [a[0]] + a[1..] == a && [b[0]] + b[1..] == b;
    }
  }

  /** The octets that make up a well-formed value are those of the character. */
  lemma OctetsOfValue(bytes: seq<Byte>, c: char)
    requires 1 <= |bytes| <= 4 && SequenceLength(bytes[0]) == |bytes| && IsWellFormed(c as int, |bytes|)
    requires forall i :: 1 <= i < |bytes| ==> 0x80 <= bytes[i] < 0xC0
    requires Fold(bytes[1..], LeadBits(bytes[0], |bytes|)) == c as int
    ensures Utf8(c) == bytes
  {
    Utf8Back(c);
    assert |Utf8(c)| == |bytes|;
    SameFold(Utf8(c)[1..], LeadBits(Utf8(c)[0], |bytes|), bytes[1..], LeadBits(bytes[0], |bytes|));
    assert [bytes[0]] + bytes[1..] == bytes && [Utf8(c)[0]] + Utf8(c)[1..] == Utf8(c);
  }

  lemma {:induction false} ContinuationOctets(s: string, n: nat, value: int) returns (bytes: seq<Byte>)
    requires ReadContinuation(s, n, value).Some?
    ensures |bytes| == n && |s| >= 3 * n && Fold(bytes, value) == ReadContinuation(s, n, value).value
    ensures forall i :: 0 <= i < n ==> 0x80 <= bytes[i] < 0xC0 && ReadEscape(s[3 * i..]) == Some(bytes[i])
  {
    bytes := [];
    if n > 0 {
      var first := ReadEscape(s).value;
      var more := ContinuationOctets(s[3..], n - 1, value * 64 + first - 0x80);
      bytes := [first] + more;
      assert s[0..] == s && bytes[1..] == more;
      assert forall i :: 1 <= i < n ==> s[3 * i..] == s[3..][3 * (i - 1)..];
    }
  }

  /** A character is read only from its own octets: no longer form, no surrogate and no stray octet is let through. */
  lemma ReadCharIsExact(s: string)
    requires ReadChar(s).Some?
    ensures var (c, n) := ReadChar(s).value;
      && n == |Utf8(c)| && |s| >= 3 * n
      && forall i :: 0 <= i < n ==> ReadEscape(s[3 * i..]) == Some(Utf8(c)[i])
  {
    var first := ReadEscape(s).value;
    var n := SequenceLength(first);
    var more := ContinuationOctets(s[3..], n - 1, LeadBits(first, n));
    var bytes := [first] + more;
    assert s[0..] == s && bytes[1..] == more;
    assert forall i :: 1 <= i < n ==> s[3 * i..] == s[3..][3 * (i - 1)..];
    OctetsOfValue(bytes, ReadChar(s).value.0);
  }

  /** A text with an escape that starts no character is refused, whatever stands around it. */
  lemma {:induction false} StrayEscapeIsRefused(a: string, rest: string)
    requires '%' !in a && rest != "" && rest[0] == '%' && ReadChar(rest).None?
    ensures Decode(a + rest).None?
  {
    if a == "" {
      assert a + rest == rest;
    } else {
      assert (a + rest)[1..] == a[1..] + rest;
      StrayEscapeIsRefused(a[1..], rest);
    }
  }
}
