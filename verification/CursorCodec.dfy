/** base64url without padding (sections 3.2 and 5 of RFC 4648). */
module Base64Url {
  import opened Wrappers

  type Byte = b: int | 0 <= b < 256

  type Sextet = b: int | 0 <= b < 64

  const PAD: Byte := 61

  function Letter(s: Sextet): (c: Byte)
    ensures c != PAD && c < 128
  {
    if s < 26 then 65 + s else if s < 52 then 97 + (s - 26) else if s < 62 then 48 + (s - 52) else if s == 62 then 45
      else 95
  }

  function Value(c: Byte): Option<Sextet> {
    if 65 <= c < 91 then Some(c - 65)
    else if 97 <= c < 123 then Some(c - 97 + 26)
    else if 48 <= c < 58 then Some(c - 48 + 52)
    else if c == 45 then Some(62)
    else if c == 95 then Some(63)
    else None
  }

  lemma ValueOfLetter(s: Sextet)
    ensures Value(Letter(s)) == Some(s)
  {}

  /** One to three bytes to four letters, filled up with padding. */
  function EncodeGroup(g: seq<Byte>): (r: seq<Byte>)
    requires 1 <= |g| <= 3
    ensures |r| == 4 && forall i :: 0 <= i < 4 ==> r[i] < 128
    ensures forall i :: 0 <= i < 4 ==> (r[i] == PAD <==> i > |g|)
  {
    var x, y, z := g[0], if |g| > 1 then g[1] else 0, if |g| > 2 then g[2] else 0;
    [Letter(x / 4), Letter(x % 4 * 16 + y / 16),
     if |g| > 1 then Letter(y % 16 * 4 + z / 64) else PAD, if |g| > 2 then Letter(z % 64) else PAD]
  }

  function DecodeGroup(t: seq<Byte>): (r: Option<seq<Byte>>)
    requires |t| == 4
    ensures r.Some? ==> 1 <= |r.value| <= 3
  {
    var a, b, c, d := Value(t[0]), Value(t[1]), Value(t[2]), Value(t[3]);
    if a.None? || b.None? then None
    else if t[2] == PAD && t[3] == PAD then Some([a.value * 4 + b.value / 16])
    else if c.None? then None
    else if t[3] == PAD then Some([a.value * 4 + b.value / 16, b.value % 16 * 16 + c.value / 4])
    else if d.None? then None
    else Some([a.value * 4 + b.value / 16, b.value % 16 * 16 + c.value / 4, c.value % 4 * 64 + d.value])
  }

  function Encode(bytes: seq<Byte>): (r: seq<Byte>)
    ensures |r| % 4 == 0 && forall i :: 0 <= i < |r| ==> r[i] < 128
  {
    if bytes == [] then []
    else if |bytes| <= 3 then EncodeGroup(bytes)
    else EncodeGroup(bytes[..3]) + Encode(bytes[3..])
  }

  /** Groups of four; a short group only at the very end. */
  function Decode(text: seq<Byte>): Option<seq<Byte>> {
    if text == [] then Some([])
    else if |text| < 4 then None
    else
      var group := DecodeGroup(text[..4]);
      if group.None? || |text| == 4 then group
      else if |group.value| < 3 then None
      else
        var rest := Decode(text[4..]);
        if rest.None? then None else Some(group.value + rest.value)
  }

  lemma ThreeBytes(x: Byte, y: Byte, z: Byte)
    ensures var a, b, c, d := x / 4, x % 4 * 16 + y / 16, y % 16 * 4 + z / 64, z % 64;
            && Value(Letter(a)) == Some(a) && Value(Letter(b)) == Some(b) && Value(Letter(c)) == Some(c)
            && Value(Letter(d)) == Some(d)
            && a * 4 + b / 16 == x && b % 16 * 16 + c / 4 == y && c % 4 * 64 + d == z
  {
    ValueOfLetter(x / 4);
    ValueOfLetter(x % 4 * 16 + y / 16);
    ValueOfLetter(y % 16 * 4 + z / 64);
    ValueOfLetter(z % 64);
  }

  lemma GroupRoundTrip(g: seq<Byte>)
    requires 1 <= |g| <= 3
    ensures DecodeGroup(EncodeGroup(g)) == Some(g)
  {
    ThreeBytes(g[0], if |g| > 1 then g[1] else 0, if |g| > 2 then g[2] else 0);
    assert |g| == 1 ==> g == [g[0]];
    assert |g| == 2 ==> g == [g[0], g[1]];
    assert |g| == 3 ==> g == [g[0], g[1], g[2]];
  }

  lemma {:induction false} DecodeOfEncode(bytes: seq<Byte>)
    ensures Decode(Encode(bytes)) == Some(bytes)
    decreases |bytes|
  {
    if 0 < |bytes| <= 3 {
      GroupRoundTrip(bytes);
      assert Encode(bytes)[..4] == Encode(bytes);
    } else if bytes != [] {
      GroupRoundTrip(bytes[..3]);
      DecodeOfEncode(bytes[3..]);
      JoinGroups(EncodeGroup(bytes[..3]), Encode(bytes[3..]));
      assert bytes[..3] + bytes[3..] == bytes;
    }
  }

  lemma JoinGroups(head: seq<Byte>, rest: seq<Byte>)
    requires |head| == 4 && DecodeGroup(head).Some? && |DecodeGroup(head).value| == 3 && Decode(rest).Some?
    ensures Decode(head + rest) == Some(DecodeGroup(head).value + Decode(rest).value)
  {
    assert (head + rest)[..4] == head && (head + rest)[4..] == rest;
    if rest == [] { assert DecodeGroup(head).value + [] == DecodeGroup(head).value; }
  }

  /** Removes all padding from the end. */
  function Strip(text: seq<Byte>): seq<Byte> {
    if text != [] && text[|text| - 1] == PAD then Strip(text[..|text| - 1]) else text
  }

  function Missing(n: nat): nat {
    (4 - n % 4) % 4
  }

  /** Fills up to a multiple of four. */
  function Repad(text: seq<Byte>): seq<Byte> {
    text + seq(Missing(|text|), _ => PAD)
  }

  lemma RepadOfGroup(g: seq<Byte>)
    requires 1 <= |g| <= 3
    ensures Repad(Strip(EncodeGroup(g))) == EncodeGroup(g)
  {
    var text := EncodeGroup(g);
    if |g| == 1 { assert Strip(text) == Strip(text[..3]) == Strip(text[..3][..2]) == text[..2]; }
    else if |g| == 2 { assert Strip(text) == Strip(text[..3]) == text[..3]; }
  }

  lemma {:induction false} RepadOfStrip(bytes: seq<Byte>)
    ensures Repad(Strip(Encode(bytes))) == Encode(bytes)
    decreases |bytes|
  {
    if 0 < |bytes| <= 3 { RepadOfGroup(bytes); }
    else if bytes != [] {
      var head, rest := EncodeGroup(bytes[..3]), Encode(bytes[3..]);
      RepadOfStrip(bytes[3..]);
      StripAppend(head, rest);
      RepadAppend(head, Strip(rest));
    }
  }

  lemma RepadAppend(head: seq<Byte>, text: seq<Byte>)
    requires |head| == 4
    ensures Repad(head + text) == head + Repad(text)
  {
    assert Missing(|text| + 4) == Missing(|text|);
  }

  lemma {:induction false} StripAppend(head: seq<Byte>, rest: seq<Byte>)
    requires head != [] && head[|head| - 1] != PAD
    ensures Strip(head + rest) == head + Strip(rest)
    decreases |rest|
  {
    var all := head + rest;
    if rest == [] { assert all == head && head + Strip(rest) == head; }
    else {
      assert all[|all| - 1] == rest[|rest| - 1];
      if rest[|rest| - 1] == PAD {
        assert all[..|all| - 1] == head + rest[..|rest| - 1];
        StripAppend(head, rest[..|rest| - 1]);
      }
    }
  }

  /** Without padding on the wire, and with the padding recomputed, nothing is lost. */
  lemma UnpaddedRoundTrip(bytes: seq<Byte>)
    ensures Decode(Repad(Strip(Encode(bytes)))) == Some(bytes)
  {
    RepadOfStrip(bytes);
    DecodeOfEncode(bytes);
  }
}

/** JSON strings and flat objects (RFC 8259, sections 4 and 7) as the program writes and reads
    them: everything outside printable ASCII is escaped, and a high surrogate escape followed by
    a low one is read as one code point. */
module JsonText {
  import opened Wrappers

  type Code = c: int | 0 <= c < 0x110000

  type Text = seq<Code>

  const QUOTE: Code := 34
  const BACKSLASH: Code := 92

  predicate High(c: Code) { 0xD800 <= c < 0xDC00 }

  predicate Low(c: Code) { 0xDC00 <= c < 0xE000 }

  function Combine(h: Code, l: Code): Code
    requires High(h) && Low(l)
  {
    0x10000 + (h - 0xD800) * 0x400 + (l - 0xDC00)
  }

  // ------------------------------------------------------------ hexadecimal

  function HexDigit(n: int): Code
    requires 0 <= n < 16
  {
    if n < 10 then 48 + n else 97 + (n - 10)
  }

  function HexValue(c: Code): Option<int> {
    if 48 <= c < 58 then Some(c - 48) else if 97 <= c < 103 then Some(c - 97 + 10)
      else if 65 <= c < 71 then Some(c - 65 + 10) else None
  }

  lemma HexValueOfDigit(n: int)
    requires 0 <= n < 16
    ensures HexValue(HexDigit(n)) == Some(n) && 48 <= HexDigit(n) < 127
  {}

  /** A \u escape of a 16-bit unit. */
  function UnitText(u: Code): (t: Text)
    requires u < 0x10000
    ensures |t| == 6
  {
    [BACKSLASH, 117, HexDigit(u / 4096), HexDigit(u / 256 % 16), HexDigit(u / 16 % 16), HexDigit(u % 16)]
  }

  predicate StartsUnit(t: Text) {
    |t| >= 2 && t[0] == BACKSLASH && t[1] == 117
  }

  function ReadUnit(t: Text): (u: Option<Code>)
    requires StartsUnit(t)
  {
    if |t| < 6 then None
    else
      var a, b, c, d := HexValue(t[2]), HexValue(t[3]), HexValue(t[4]), HexValue(t[5]);
      if a.None? || b.None? || c.None? || d.None? then None
      else Some(a.value * 4096 + b.value * 256 + c.value * 16 + d.value)
  }

  lemma ReadUnitOfText(u: Code, rest: Text)
    requires u < 0x10000
    ensures StartsUnit(UnitText(u) + rest) && ReadUnit(UnitText(u) + rest) == Some(u)
            && (UnitText(u) + rest)[6..] == rest
  {
    HexValueOfDigit(u / 4096);
    HexValueOfDigit(u / 256 % 16);
    HexValueOfDigit(u / 16 % 16);
    HexValueOfDigit(u % 16);
    var t := UnitText(u) + rest;
    assert t[2] == HexDigit(u / 4096) && t[3] == HexDigit(u / 256 % 16) && t[4] == HexDigit(u / 16 % 16)
      && t[5] == HexDigit(u % 16);
    HexDigits(u);
  }

  lemma HexDigits(u: Code)
    requires u < 0x10000
    ensures u / 4096 * 4096 + u / 256 % 16 * 256 + u / 16 % 16 * 16 + u % 16 == u
  {
    assert u / 16 == u / 256 * 16 + u / 16 % 16;
    assert u / 256 == u / 4096 * 16 + u / 256 % 16;
  }

  // ------------------------------------------------------------ strings

  /** The letter of a two-character escape. */
  function Short(c: Code): Option<Code> {
    if c == 34 || c == 92 then Some(c)
    else if c == 8 then Some(98)
    else if c == 9 then Some(116)
    else if c == 10 then Some(110)
    else if c == 12 then Some(102)
    else if c == 13 then Some(114)
    else None
  }

  function Unshort(letter: Code): Option<Code> {
    if letter == 34 || letter == 92 || letter == 47 then Some(letter)
    else if letter == 98 then Some(8)
    else if letter == 116 then Some(9)
    else if letter == 110 then Some(10)
    else if letter == 102 then Some(12)
    else if letter == 114 then Some(13)
    else None
  }

  function EscapeOne(c: Code): (t: Text)
    ensures |t| >= 1
  {
    if Short(c).Some? then [BACKSLASH, Short(c).value]
    else if 32 <= c < 127 then [c]
    else if c < 0x10000 then UnitText(c)
    else UnitText(0xD800 + (c - 0x10000) / 0x400) + UnitText(0xDC00 + (c - 0x10000) % 0x400)
  }

  function Escape(s: Text): Text {
    if s == [] then [] else EscapeOne(s[0]) + Escape(s[1..])
  }

  /** What was read before the rest of a scan. */
  function Prepend(c: Code, r: Option<(Text, Text)>): Option<(Text, Text)> {
    if r.None? then None else Some(([c] + r.value.0, r.value.1))
  }

  /** Reads up to the closing quote: the string and what follows it. */
  function Scan(t: Text): Option<(Text, Text)>
    decreases |t|
  {
    if t == [] || t[0] < 32 then None
    else if t[0] == QUOTE then Some(([], t[1..]))
    else if t[0] != BACKSLASH then Prepend(t[0], Scan(t[1..]))
    else if |t| < 2 then None
    else if t[1] != 117 then
      if Unshort(t[1]).None? then None else Prepend(Unshort(t[1]).value, Scan(t[2..]))
    else if ReadUnit(t).None? then None
    else
      var u := ReadUnit(t).value;
      if High(u) && StartsUnit(t[6..]) then
        if ReadUnit(t[6..]).None? then None
        else if Low(ReadUnit(t[6..]).value) then Prepend(Combine(u, ReadUnit(t[6..]).value), Scan(t[12..]))
        else Prepend(u, Scan(t[6..]))
      else Prepend(u, Scan(t[6..]))
  }

  /** A string after writing and reading: split pairs come back joined. */
  function Joined(s: Text): Text
    decreases |s|
  {
    if s == [] then []
    else if |s| > 1 && High(s[0]) && Low(s[1]) then [Combine(s[0], s[1])] + Joined(s[2..])
    else [s[0]] + Joined(s[1..])
  }

  /** A high surrogate directly before a low one. */
  predicate HasSplitPair(s: Text) {
    exists i :: 0 <= i < |s| - 1 && High(s[i]) && Low(s[i + 1])
  }

  lemma SplitPairInTail(s: Text)
    requires s != [] && !(|s| > 1 && High(s[0]) && Low(s[1]))
    ensures HasSplitPair(s) <==> HasSplitPair(s[1..])
  {
    var tail := s[1..];
    if HasSplitPair(s) {
      var i :| 0 <= i < |s| - 1 && High(s[i]) && Low(s[i + 1]);
      assert i > 0 && High(tail[i - 1]) && Low(tail[i]);
    }
    if HasSplitPair(tail) {
      var i :| 0 <= i < |tail| - 1 && High(tail[i]) && Low(tail[i + 1]);
      assert High(s[i + 1]) && Low(s[i + 2]);
    }
  }

  lemma {:induction false} JoinedIsSame(s: Text)
    ensures |Joined(s)| <= |s|
    ensures Joined(s) == s <==> !HasSplitPair(s)
    ensures HasSplitPair(s) ==> |Joined(s)| < |s|
    decreases |s|
  {
    if s == [] {}
    else if |s| > 1 && High(s[0]) && Low(s[1]) {
      JoinedIsSame(s[2..]);
    } else {
      var tail := s[1..];
      JoinedIsSame(tail);
      SplitPairInTail(s);
      assert s == [s[0]] + tail && Joined(s) == [s[0]] + Joined(tail);
      assert Joined(s)[1..] == Joined(tail);
    }
  }

  /** An escaped string, its closing quote, and whatever follows. */
  function Wire(s: Text, rest: Text): Text {
    Escape(s) + [QUOTE] + rest
  }

  lemma WireCons(s: Text, rest: Text)
    requires s != []
    ensures Wire(s, rest) == EscapeOne(s[0]) + Wire(s[1..], rest)
  {}

  predicate Unescaped(c: Code) {
    Short(c).None? && 32 <= c < 127
  }

  lemma ScanShort(c: Code, more: Text)
    requires Short(c).Some? || Unescaped(c)
    ensures Scan(EscapeOne(c) + more) == Prepend(c, Scan(more))
    ensures !StartsUnit(EscapeOne(c) + more)
  {
    var t := EscapeOne(c) + more;
    if Short(c).Some? { assert t[0] == BACKSLASH && t[1] == Short(c).value && t[2..] == more; }
    else { assert t[0] == c && t[1..] == more; }
  }

  lemma ScanAstral(c: Code, more: Text)
    requires c >= 0x10000
    ensures Scan(EscapeOne(c) + more) == Prepend(c, Scan(more))
    ensures StartsUnit(EscapeOne(c) + more) && ReadUnit(EscapeOne(c) + more).Some?
            && !Low(ReadUnit(EscapeOne(c) + more).value)
  {
    var h, l := 0xD800 + (c - 0x10000) / 0x400, 0xDC00 + (c - 0x10000) % 0x400;
    assert EscapeOne(c) + more == UnitText(h) + (UnitText(l) + more);
    ReadUnitOfText(h, UnitText(l) + more);
    ScanPair(h, l, more);
    assert Combine(h, l) == c;
  }

  lemma ScanPair(h: Code, l: Code, more: Text)
    requires High(h) && Low(l)
    ensures Scan(UnitText(h) + (UnitText(l) + more)) == Prepend(Combine(h, l), Scan(more))
  {
    var t := UnitText(h) + (UnitText(l) + more);
    ReadUnitOfText(h, UnitText(l) + more);
    ReadUnitOfText(l, more);
    assert t[12..] == more;
  }

  lemma ScanUnit(c: Code, more: Text)
    requires c < 0x10000
    requires High(c) && StartsUnit(more) ==> ReadUnit(more).Some? && !Low(ReadUnit(more).value)
    ensures Scan(UnitText(c) + more) == Prepend(c, Scan(more))
  {
    ReadUnitOfText(c, more);
  }

  /** The first unit of an escaped string is low only if its first code point is. */
  lemma FirstUnit(s: Text, rest: Text)
    requires StartsUnit(Wire(s, rest))
    ensures s != [] && ReadUnit(Wire(s, rest)).Some? && (Low(ReadUnit(Wire(s, rest)).value) ==> Low(s[0]))
  {
    assert s == [] ==> Wire(s, rest) == [QUOTE] + rest;
    if s != [] {
      var c, more := s[0], Wire(s[1..], rest);
      WireCons(s, rest);
      if Short(c).Some? || Unescaped(c) { ScanShort(c, more); }
      else if c < 0x10000 { ReadUnitOfText(c, more); }
      else { ScanAstral(c, more); }
    }
  }

  lemma ScanFirst(s: Text, rest: Text)
    requires s != [] && !(|s| > 1 && High(s[0]) && Low(s[1]))
    ensures Scan(Wire(s, rest)) == Prepend(s[0], Scan(Wire(s[1..], rest)))
  {
    var c, more := s[0], Wire(s[1..], rest);
    WireCons(s, rest);
    if Short(c).Some? || Unescaped(c) { ScanShort(c, more); }
    else if c < 0x10000 {
      if StartsUnit(more) { FirstUnit(s[1..], rest); }
      ScanUnit(c, more);
    } else {
      ScanAstral(c, more);
    }
  }

  lemma ScanFirstPair(s: Text, rest: Text)
    requires |s| > 1 && High(s[0]) && Low(s[1])
    ensures Scan(Wire(s, rest)) == Prepend(Combine(s[0], s[1]), Scan(Wire(s[2..], rest)))
  {
    WireConsTwo(s, rest);
    ScanPair(s[0], s[1], Wire(s[2..], rest));
  }

  lemma WireConsTwo(s: Text, rest: Text)
    requires |s| > 1 && High(s[0]) && Low(s[1])
    ensures Wire(s, rest) == UnitText(s[0]) + (UnitText(s[1]) + Wire(s[2..], rest))
  {
    var tail := s[1..];
    WireCons(s, rest);
    WireCons(tail, rest);
    assert tail[0] == s[1] && tail[1..] == s[2..];
    assert EscapeOne(s[0]) == UnitText(s[0]) && EscapeOne(tail[0]) == UnitText(s[1]);
  }

  /** Reading an escaped string gives the string with split pairs joined, whatever follows. */
  lemma {:induction false} ScanOfEscape(s: Text, rest: Text)
    ensures Scan(Wire(s, rest)) == Some((Joined(s), rest))
    decreases |s|
  {
    if s == [] { assert Wire(s, rest) == [QUOTE] + rest && Wire(s, rest)[1..] == rest; }
    else if |s| > 1 && High(s[0]) && Low(s[1]) {
      ScanFirstPair(s, rest);
      ScanOfEscape(s[2..], rest);
    } else {
      ScanFirst(s, rest);
      ScanOfEscape(s[1..], rest);
    }
  }

  /** A string comes back exactly when it has no split pair. */
  lemma StringRoundTrip(s: Text, rest: Text)
    ensures Scan(Wire(s, rest)) == Some((s, rest)) <==> !HasSplitPair(s)
  {
    ScanOfEscape(s, rest);
    JoinedIsSame(s);
  }

  // ------------------------------------------------------------ objects

  /** Strings and non-negative integers: the values a cursor is made of. */
  datatype Value = Str(text: Text) | Num(digits: Text)

  /** Names with values, in order. */
  type Members = seq<(Text, Value)>

  predicate Digit(c: Code) { 48 <= c < 58 }

  /** An integer without leading zeros. */
  predicate Numeral(d: Text) {
    d != [] && (forall i :: 0 <= i < |d| ==> Digit(d[i])) && (d[0] == 48 ==> |d| == 1)
  }

  function Quoted(s: Text): Text {
    [QUOTE] + Escape(s) + [QUOTE]
  }

  function ValueText(v: Value): Text {
    if v.Str? then Quoted(v.text) else v.digits
  }

  function MemberText(m: (Text, Value)): Text {
    Quoted(m.0) + [58] + ValueText(m.1)
  }

  function MembersText(ms: Members): Text
    requires ms != []
  {
    MemberText(ms[0]) + if |ms| == 1 then [125] else [44] + MembersText(ms[1..])
  }

  /** A compact object, its members in the order given. */
  function ObjectText(ms: Members): Text {
    [123] + if ms == [] then [125] else MembersText(ms)
  }

  function TakeDigits(t: Text): (n: nat)
    ensures n <= |t| && forall i :: 0 <= i < n ==> Digit(t[i])
    ensures n < |t| ==> !Digit(t[n])
  {
    if t == [] || !Digit(t[0]) then 0 else 1 + TakeDigits(t[1..])
  }

  function ReadValue(t: Text): (r: Option<(Value, Text)>)
    ensures r.Some? ==> |r.value.1| < |t|
  {
    if t == [] then None
    else if t[0] == QUOTE then
      var s := Scan(t[1..]);
      if s.None? then None else
        ScanShortens(t[1..]);
        Some((Str(s.value.0), s.value.1))
    else if Numeral(t[..TakeDigits(t)]) then Some((Num(t[..TakeDigits(t)]), t[TakeDigits(t)..]))
    else None
  }

  lemma {:induction false} ScanShortens(t: Text)
    ensures Scan(t).Some? ==> |Scan(t).value.1| < |t|
    decreases |t|
  {
    if t != [] && t[0] >= 32 && t[0] != QUOTE {
      ScanShortens(t[1..]);
      if |t| >= 2 { ScanShortens(t[2..]); }
      if |t| >= 6 { ScanShortens(t[6..]); }
      if |t| >= 12 { ScanShortens(t[12..]); }
    }
  }

  /** Reads members up to the closing brace; a repeated name keeps its last value. */
  function ReadMembers(t: Text, sofar: map<Text, Value>): Option<(map<Text, Value>, Text)>
    decreases |t|
  {
    if t == [] || t[0] != QUOTE then None
    else
      var name := Scan(t[1..]);
      ScanShortens(t[1..]);
      if name.None? || name.value.1 == [] || name.value.1[0] != 58 then None
      else
        var v := ReadValue(name.value.1[1..]);
        if v.None? || v.value.1 == [] then None
        else
          var next := sofar[name.value.0 := v.value.0];
          if v.value.1[0] == 125 then Some((next, v.value.1[1..]))
          else if v.value.1[0] == 44 then ReadMembers(v.value.1[1..], next)
          else None
  }

  /** A whole text that is one flat object. */
  function ReadObject(t: Text): Option<map<Text, Value>> {
    if t == [] || t[0] != 123 then None
    else if t == [123, 125] then Some(map[])
    else
      var r := ReadMembers(t[1..], map[]);
      if r.None? || r.value.1 != [] then None else Some(r.value.0)
  }

  function JoinedValue(v: Value): Value {
    if v.Str? then Str(Joined(v.text)) else v
  }

  function Stored(ms: Members, sofar: map<Text, Value>): map<Text, Value> {
    if ms == [] then sofar else Stored(ms[1..], sofar[Joined(ms[0].0) := JoinedValue(ms[0].1)])
  }

  lemma {:induction false} StoredKeeps(ms: Members, sofar: map<Text, Value>, name: Text)
    requires name in sofar && forall j :: 0 <= j < |ms| ==> Joined(ms[j].0) != name
    ensures name in Stored(ms, sofar) && Stored(ms, sofar)[name] == sofar[name]
    decreases |ms|
  {
    if ms != [] { StoredKeeps(ms[1..], sofar[Joined(ms[0].0) := JoinedValue(ms[0].1)], name); }
  }

  /** A name not repeated later keeps its value. */
  lemma {:induction false} StoredAt(ms: Members, sofar: map<Text, Value>, i: nat)
    requires i < |ms| && forall j :: i < j < |ms| ==> Joined(ms[j].0) != Joined(ms[i].0)
    ensures Joined(ms[i].0) in Stored(ms, sofar) && Stored(ms, sofar)[Joined(ms[i].0)] == JoinedValue(ms[i].1)
    decreases |ms|
  {
    var next := sofar[Joined(ms[0].0) := JoinedValue(ms[0].1)];
    if i == 0 { StoredKeeps(ms[1..], next, Joined(ms[0].0)); } else { StoredAt(ms[1..], next, i - 1); }
  }

  lemma {:induction false} DigitsEnd(d: Text, rest: Text)
    requires forall i :: 0 <= i < |d| ==> Digit(d[i])
    requires rest != [] && !Digit(rest[0])
    ensures TakeDigits(d + rest) == |d|
  {
    if d == [] { assert d + rest == rest; }
    else {
      assert (d + rest)[1..] == d[1..] + rest;
      DigitsEnd(d[1..], rest);
    }
  }

  lemma StringComesBack(s: Text, rest: Text)
    ensures ReadValue(Quoted(s) + rest) == Some((Str(Joined(s)), rest))
  {
    assert (Quoted(s) + rest)[1..] == Wire(s, rest);
    ScanOfEscape(s, rest);
  }

  lemma NumberComesBack(d: Text, rest: Text)
    requires Numeral(d) && rest != [] && !Digit(rest[0])
    ensures ReadValue(d + rest) == Some((Num(d), rest))
  {
    DigitsEnd(d, rest);
    assert (d + rest)[..|d|] == d && (d + rest)[|d|..] == rest;
  }

  lemma ValueComesBack(v: Value, rest: Text)
    requires rest != [] && !Digit(rest[0]) && (v.Num? ==> Numeral(v.digits))
    ensures ReadValue(ValueText(v) + rest) == Some((JoinedValue(v), rest))
  {
    if v.Str? { StringComesBack(v.text, rest); } else { NumberComesBack(v.digits, rest); }
  }

  lemma MemberShape(m: (Text, Value), rest: Text)
    ensures var after := [58] + (ValueText(m.1) + rest);
            var t := MemberText(m) + rest;
            t[0] == QUOTE && t[1..] == Wire(m.0, after) && after[1..] == ValueText(m.1) + rest
  {
    assert MemberText(m) + rest == [QUOTE] + Wire(m.0, [58] + (ValueText(m.1) + rest));
  }

  lemma MemberComesBack(m: (Text, Value), rest: Text, sofar: map<Text, Value>)
    requires rest != [] && (rest[0] == 125 || rest[0] == 44) && (m.1.Num? ==> Numeral(m.1.digits))
    ensures ReadMembers(MemberText(m) + rest, sofar) ==
            var next := sofar[Joined(m.0) := JoinedValue(m.1)];
            if rest[0] == 125 then Some((next, rest[1..])) else ReadMembers(rest[1..], next)
  {
    MemberShape(m, rest);
    ScanOfEscape(m.0, [58] + (ValueText(m.1) + rest));
    ValueComesBack(m.1, rest);
  }

  /** What follows the first member. */
  function AfterFirst(ms: Members): Text
    requires ms != []
  {
    if |ms| == 1 then [125] else [44] + MembersText(ms[1..])
  }

  lemma FirstMember(ms: Members, sofar: map<Text, Value>)
    requires ms != [] && (ms[0].1.Num? ==> Numeral(ms[0].1.digits))
    ensures MembersText(ms) == MemberText(ms[0]) + AfterFirst(ms)
    ensures ReadMembers(MembersText(ms), sofar) ==
            var next := sofar[Joined(ms[0].0) := JoinedValue(ms[0].1)];
            if |ms| == 1 then Some((next, [])) else ReadMembers(MembersText(ms[1..]), next)
  {
    MemberComesBack(ms[0], AfterFirst(ms), sofar);
    assert AfterFirst(ms)[1..] == if |ms| == 1 then [] else MembersText(ms[1..]);
  }

  lemma {:induction false} MembersComeBack(ms: Members, sofar: map<Text, Value>)
    requires ms != [] && WellFormed(ms)
    ensures ReadMembers(MembersText(ms), sofar) == Some((Stored(ms, sofar), []))
    decreases |ms|
  {
    var next := sofar[Joined(ms[0].0) := JoinedValue(ms[0].1)];
    FirstMember(ms, sofar);
    if |ms| == 1 { assert Stored(ms[1..], next) == next; } else { MembersComeBack(ms[1..], next); }
  }

  predicate WellFormed(ms: Members) {
    forall i :: 0 <= i < |ms| ==> ms[i].1.Num? ==> Numeral(ms[i].1.digits)
  }

  /** Reading a written object gives its members, with split pairs joined. */
  lemma ObjectRoundTrip(ms: Members)
    requires WellFormed(ms)
    ensures ReadObject(ObjectText(ms)) == Some(Stored(ms, map[]))
  {
    if ms != [] {
      MembersComeBack(ms, map[]);
      ObjectShape(ms);
    }
  }

  lemma ObjectShape(ms: Members)
    requires ms != []
    ensures ObjectText(ms)[1..] == MembersText(ms) && ObjectText(ms)[0] == 123 && ObjectText(ms) != [123, 125]
  {
    assert MembersText(ms)[0] == QUOTE && ObjectText(ms)[1] == QUOTE;
  }

  // ------------------------------------------------------------ the text is ASCII

  predicate Ascii(t: Text) {
    forall i :: 0 <= i < |t| ==> t[i] < 128
  }

  lemma {:induction false} EscapeIsAscii(s: Text)
    ensures Ascii(Escape(s))
  {
    if s != [] {
      EscapeIsAscii(s[1..]);
      EscapeOneIsAscii(s[0]);
    }
  }

  lemma UnitIsAscii(u: Code)
    requires u < 0x10000
    ensures Ascii(UnitText(u))
  {
    HexValueOfDigit(u / 4096);
    HexValueOfDigit(u / 256 % 16);
    HexValueOfDigit(u / 16 % 16);
    HexValueOfDigit(u % 16);
  }

  lemma EscapeOneIsAscii(c: Code)
    ensures Ascii(EscapeOne(c))
  {
    if Short(c).None? && !(32 <= c < 127) {
      if c < 0x10000 { UnitIsAscii(c); }
      else {
        UnitIsAscii(0xD800 + (c - 0x10000) / 0x400);
        UnitIsAscii(0xDC00 + (c - 0x10000) % 0x400);
      }
    }
  }

  lemma MemberIsAscii(m: (Text, Value))
    requires m.1.Num? ==> Numeral(m.1.digits)
    ensures Ascii(MemberText(m))
  {
    EscapeIsAscii(m.0);
    if m.1.Str? { EscapeIsAscii(m.1.text); }
    assert Ascii(Quoted(m.0)) && Ascii(ValueText(m.1));
  }

  lemma {:induction false} MembersAreAscii(ms: Members)
    requires ms != [] && WellFormed(ms)
    ensures Ascii(MembersText(ms))
    decreases |ms|
  {
    MemberIsAscii(ms[0]);
    if |ms| > 1 { MembersAreAscii(ms[1..]); }
    assert Ascii(AfterFirst(ms));
    assert MembersText(ms) == MemberText(ms[0]) + AfterFirst(ms);
  }

  lemma ObjectIsAscii(ms: Members)
    requires WellFormed(ms)
    ensures Ascii(ObjectText(ms))
  {
    if ms != [] { MembersAreAscii(ms); }
  }
}

/** Keyset cursors: a compact object with sorted names, in unpadded base64url, checked against the
    request it comes back with. */
module CursorCodec {
  import opened Wrappers
  import opened Base64Url
  import opened JsonText

  /** A 128-bit id as its hexadecimal digits. */
  type Uuid = u: seq<int> | |u| == 32 && (forall i :: 0 <= i < 32 ==> 0 <= u[i] < 16) witness seq(32, _ => 0)

  datatype Cursor = Cursor(fingerprint: Text, orderField: Text, orderValue: Text, tiebreak: Uuid, direction: Text)

  datatype Rejection = Malformed | WrongSchema | MissingKeys | OtherFilters | OtherOrder | OtherDirection | BadId

  datatype Outcome = Accepted(cursor: Cursor) | Rejected(why: Rejection)

  const KEY_D: Text := [100]
  const KEY_FP: Text := [102, 112]
  const KEY_ID: Text := [105, 100]
  const KEY_OB: Text := [111, 98]
  const KEY_OV: Text := [111, 118]
  const KEY_SV: Text := [115, 118]
  const ONE: Text := [49]
  const ASC: Text := [97, 115, 99]
  const DESC: Text := [100, 101, 115, 99]
  const DASH: Code := 45

  // ------------------------------------------------------------ ids

  function HexText(u: seq<int>): Text
    requires forall i :: 0 <= i < |u| ==> 0 <= u[i] < 16
  {
    seq(|u|, i requires 0 <= i < |u| => HexDigit(u[i]))
  }

  /** Groups of 8, 4, 4, 4 and 12 digits. */
  function UuidText(u: Uuid): Text {
    HexText(u[..8]) + [DASH] + HexText(u[8..12]) + [DASH] + HexText(u[12..16]) + [DASH] + HexText(u[16..20]) + [DASH]
      + HexText(u[20..])
  }

  function Undashed(t: Text): Text {
    if t == [] then [] else (if t[0] == DASH then [] else [t[0]]) + Undashed(t[1..])
  }

  function FromHex(digits: Text): Option<Uuid> {
    if |digits| == 32 && forall i :: 0 <= i < 32 ==> HexValue(digits[i]).Some?
    then Some(seq(32, i requires 0 <= i < 32 => HexValue(digits[i]).value))
    else None
  }

  function ParseUuid(t: Text): Option<Uuid> {
    FromHex(Undashed(t))
  }

  lemma FromHexOfText(u: Uuid)
    ensures FromHex(HexText(u)) == Some(u)
  {
    forall i | 0 <= i < 32 ensures HexValue(HexText(u)[i]) == Some(u[i]) { HexValueOfDigit(u[i]); }
    assert FromHex(HexText(u)).value == u;
  }

  lemma GroupsJoin(u: Uuid)
    ensures HexText(u[..8]) + (HexText(u[8..12]) + (HexText(u[12..16]) + (HexText(u[16..20]) + HexText(u[20..])))) ==
            HexText(u)
  {}

  lemma {:induction false} UndashedAppend(a: Text, b: Text)
    ensures Undashed(a + b) == Undashed(a) + Undashed(b)
  {
    if a == [] { assert a + b == b; }
    else {
      assert (a + b)[1..] == a[1..] + b;
      UndashedAppend(a[1..], b);
    }
  }

  lemma {:induction false} HexHasNoDash(u: seq<int>)
    requires forall i :: 0 <= i < |u| ==> 0 <= u[i] < 16
    ensures Undashed(HexText(u)) == HexText(u)
  {
    if u != [] {
      HexHasNoDash(u[1..]);
      HexValueOfDigit(u[0]);
      assert HexText(u)[1..] == HexText(u[1..]);
    }
  }

  lemma UndashedGroup(u: seq<int>, t: Text)
    requires forall i :: 0 <= i < |u| ==> 0 <= u[i] < 16
    ensures Undashed(HexText(u) + [DASH] + t) == HexText(u) + Undashed(t)
  {
    HexHasNoDash(u);
    UndashedAppend(HexText(u) + [DASH], t);
    UndashedAppend(HexText(u), [DASH]);
    assert Undashed([DASH]) == [];
  }

  lemma UuidRoundTrip(u: Uuid)
    ensures ParseUuid(UuidText(u)) == Some(u)
  {
    var t5 := HexText(u[20..]);
    var t4 := HexText(u[16..20]) + [DASH] + t5;
    var t3 := HexText(u[12..16]) + [DASH] + t4;
    var t2 := HexText(u[8..12]) + [DASH] + t3;
    assert UuidText(u) == HexText(u[..8]) + [DASH] + t2;
    HexHasNoDash(u[20..]);
    UndashedGroup(u[16..20], t5);
    UndashedGroup(u[12..16], t4);
    UndashedGroup(u[8..12], t3);
    UndashedGroup(u[..8], t2);
    GroupsJoin(u);
    FromHexOfText(u);
  }

  // ------------------------------------------------------------ encoding and decoding

  function Payload(c: Cursor): (ms: Members)
    ensures WellFormed(ms)
  {
    [(KEY_D, Str(c.direction)), (KEY_FP, Str(c.fingerprint)), (KEY_ID, Str(UuidText(c.tiebreak))),
     (KEY_OB, Str(c.orderField)), (KEY_OV, Str(c.orderValue)), (KEY_SV, Num(ONE))]
  }

  function ToBytes(t: Text): seq<Byte>
    requires Ascii(t)
  {
    seq(|t|, i requires 0 <= i < |t| => t[i])
  }

  function FromBytes(b: seq<Byte>): Text {
    seq(|b|, i requires 0 <= i < |b| => b[i])
  }

  function EncodeCursor(c: Cursor): seq<Byte> {
    ObjectIsAscii(Payload(c));
    Strip(Encode(ToBytes(ObjectText(Payload(c)))))
  }

  /** The text of a value, as `str` gives it. */
  function Plain(v: JsonText.Value): Text {
    if v.Str? then v.text else v.digits
  }

  function DecodeCursor(wire: seq<Byte>, fingerprint: Text, orderField: Option<Text>,
                        direction: Option<Text>): (r: Outcome)
    ensures r.Accepted? ==> r.cursor.fingerprint == fingerprint
    ensures r.Accepted? && orderField.Some? ==> r.cursor.orderField == orderField.value
    ensures r.Accepted? && direction.Some? ==> r.cursor.direction == direction.value
  {
    var raw := Decode(Repad(wire));
    if raw.None? || !Ascii(FromBytes(raw.value)) then Rejected(Malformed)
    else
      var payload := ReadObject(FromBytes(raw.value));
      if payload.None? then Rejected(Malformed) else Check(payload.value, fingerprint, orderField, direction)
  }

  function Check(m: map<Text, JsonText.Value>, fingerprint: Text, orderField: Option<Text>,
                 direction: Option<Text>): (r: Outcome)
    ensures r.Accepted? ==> r.cursor.fingerprint == fingerprint
    ensures r.Accepted? && orderField.Some? ==> r.cursor.orderField == orderField.value
    ensures r.Accepted? && direction.Some? ==> r.cursor.direction == direction.value
  {
    if KEY_SV !in m || m[KEY_SV] != Num(ONE) then Rejected(WrongSchema)
    else if KEY_FP !in m || KEY_OB !in m || KEY_OV !in m || KEY_ID !in m || KEY_D !in m then Rejected(MissingKeys)
    else if m[KEY_FP] != Str(fingerprint) then Rejected(OtherFilters)
    else if orderField.Some? && m[KEY_OB] != Str(orderField.value) then Rejected(OtherOrder)
    else if direction.Some? && m[KEY_D] != Str(direction.value) then Rejected(OtherDirection)
    else if !m[KEY_ID].Str? || ParseUuid(m[KEY_ID].text).None? then Rejected(BadId)
    else if !m[KEY_OB].Str? || (m[KEY_D] != Str(ASC) && m[KEY_D] != Str(DESC)) then Rejected(Malformed)
    else Accepted(Cursor(fingerprint, m[KEY_OB].text, Plain(m[KEY_OV]), ParseUuid(m[KEY_ID].text).value, m[KEY_D].text))
  }

  // ------------------------------------------------------------ the round trip

  /** A cursor as the program makes them: the names are its own and the direction is one of two. */
  predicate Proper(c: Cursor) {
    !HasSplitPair(c.fingerprint) && !HasSplitPair(c.orderField) && (c.direction == ASC || c.direction == DESC)
  }

  lemma AsciiJoined(t: Text)
    requires Ascii(t)
    ensures Joined(t) == t
  {
    JoinedIsSame(t);
  }

  lemma UuidIsAscii(u: Uuid)
    ensures Ascii(UuidText(u))
  {
    forall i | 0 <= i < 32 ensures HexDigit(u[i]) < 127 { HexValueOfDigit(u[i]); }
  }

  lemma PayloadStored(c: Cursor)
    requires Proper(c)
    ensures var m := Stored(Payload(c), map[]);
            && KEY_D in m && m[KEY_D] == Str(c.direction) && KEY_FP in m && m[KEY_FP] == Str(c.fingerprint)
            && KEY_ID in m && m[KEY_ID] == Str(UuidText(c.tiebreak)) && KEY_OB in m && m[KEY_OB] == Str(c.orderField)
            && KEY_OV in m && m[KEY_OV] == Str(Joined(c.orderValue)) && KEY_SV in m && m[KEY_SV] == Num(ONE)
  {
    JoinedIsSame(c.fingerprint);
    JoinedIsSame(c.orderField);
    AsciiJoined(c.direction);
    UuidIsAscii(c.tiebreak);
    AsciiJoined(UuidText(c.tiebreak));
    var ms := Payload(c);
    forall i | 0 <= i < 6 ensures MemberStored(ms, i) { MembersStored(c, i); }
    assert MemberStored(ms, 0) && MemberStored(ms, 1) && MemberStored(ms, 2) && MemberStored(ms, 3)
      && MemberStored(ms, 4) && MemberStored(ms, 5);
  }

  ghost predicate MemberStored(ms: seq<(Text, Value)>, i: nat)
    requires i < |ms|
  {
    ms[i].0 in Stored(ms, map[]) && Stored(ms, map[])[ms[i].0] == JoinedValue(ms[i].1)
  }

  lemma MembersStored(c: Cursor, i: nat)
    requires Proper(c) && i < 6
    ensures MemberStored(Payload(c), i)
  {
    var ms := Payload(c);
    forall j | 0 <= j < 6 ensures Joined(ms[j].0) == ms[j].0 { AsciiJoined(ms[j].0); }
    NamesApart(c);
    StoredAt(ms, map[], i);
  }

  lemma NamesApart(c: Cursor)
    ensures forall i, j :: 0 <= i < j < 6 ==> Payload(c)[i].0 != Payload(c)[j].0
  {
    assert KEY_D[0] == 100 && KEY_FP[0] == 102 && KEY_ID[0] == 105 && KEY_OB[0] == 111 && KEY_OV[0] == 111
      && KEY_SV[0] == 115;
    assert KEY_OB[1] == 98 && KEY_OV[1] == 118;
  }

  lemma PayloadComesBack(c: Cursor, fingerprint: Text, orderField: Option<Text>, direction: Option<Text>)
    ensures DecodeCursor(EncodeCursor(c), fingerprint, orderField, direction) ==
            Check(Stored(Payload(c), map[]), fingerprint, orderField, direction)
  {
    var text := ObjectText(Payload(c));
    ObjectIsAscii(Payload(c));
    UnpaddedRoundTrip(ToBytes(text));
    assert FromBytes(ToBytes(text)) == text;
    ObjectRoundTrip(Payload(c));
  }

  /** Decoding an encoded cursor for the same request returns it, with the order value's split
      pairs joined. */
  lemma DecodeOfCursor(c: Cursor)
    requires Proper(c)
    ensures DecodeCursor(EncodeCursor(c), c.fingerprint, Some(c.orderField), Some(c.direction)) ==
            Accepted(c.(orderValue := Joined(c.orderValue)))
  {
    PayloadComesBack(c, c.fingerprint, Some(c.orderField), Some(c.direction));
    PayloadStored(c);
    UuidRoundTrip(c.tiebreak);
  }

  /** The round trip is exact for every order value without a split surrogate pair, and only
      for those. */
  lemma CursorRoundTrip(c: Cursor)
    requires Proper(c)
    ensures (DecodeCursor(EncodeCursor(c), c.fingerprint, Some(c.orderField), Some(c.direction)) == Accepted(c)) <==>
              !HasSplitPair(c.orderValue)
  {
    DecodeOfCursor(c);
    JoinedIsSame(c.orderValue);
    assert c.(orderValue := Joined(c.orderValue)) == c <==> Joined(c.orderValue) == c.orderValue;
  }

  /** A cursor is taken exactly by requests with its fingerprint, order field and direction. */
  lemma AcceptedExactly(c: Cursor, fingerprint: Text, orderField: Option<Text>, direction: Option<Text>)
    requires Proper(c)
    ensures DecodeCursor(EncodeCursor(c), fingerprint, orderField, direction).Accepted? <==>
              && fingerprint == c.fingerprint
              && (orderField.None? || orderField.value == c.orderField)
              && (direction.None? || direction.value == c.direction)
    ensures fingerprint != c.fingerprint ==>
              DecodeCursor(EncodeCursor(c), fingerprint, orderField, direction) == Rejected(OtherFilters)
  {
    PayloadComesBack(c, fingerprint, orderField, direction);
    PayloadStored(c);
    UuidRoundTrip(c.tiebreak);
  }
}
