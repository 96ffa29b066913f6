/** Escaping bytes for JSON strings, of plain and of mangled text. */
module Json {
  import opened Pointers
  import opened Bytes
  import opened Strings

  /** What the escape tables say about a byte: keep it, treat it as a mangled NUL, escape it as
      hexadecimal, or by a letter. */
  datatype Class = K | Z | X | Letter(c: byte)

  function Escapes(mangled: bool, c: byte): Class {
    if c == 0 then (if mangled then Z else X)
    else if c == 8 then Letter(0x62)
    else if c == 9 then Letter(0x74)
    else if c == 10 then Letter(0x6E)
    else if c == 12 then Letter(0x66)
    else if c == 13 then Letter(0x72)
    else if c < 0x20 then X
    else if c == 0x22 then Letter(0x22)
    else if c == 0x5C then Letter(0x5C)
    else K
  }

  function Hex(c: nat): byte
    requires c < 16
  {
    if c < 10 then 0x30 + c else 0x61 + c - 10
  }

  function HexEscape(c: byte): seq<byte> {
    [0x5C, 0x75, 0x30, 0x30, Hex(c / 16), Hex(c % 16)]
  }

  /** How one byte is written. */
  function Code(mangled: bool, c: byte): seq<byte> {
    match Escapes(mangled, c)
    case K => [c]
    case Z => HexEscape(c)
    case X => HexEscape(c)
    case Letter(l) => [0x5C, l]
  }

  /** How many bytes of text one step takes: a mangled NUL is two bytes. */
  function Taken(mangled: bool, text: seq<byte>): (n: nat)
    requires text != []
    ensures 1 <= n <= |text|
  {
    if Escapes(mangled, text[0]) == Z && |text| > 1 then 2 else 1
  }

  function Escaped(mangled: bool, text: seq<byte>): seq<byte> {
    if text == [] then []
    else Code(mangled, text[0]) + Escaped(mangled, text[Taken(mangled, text)..])
  }

  /** Escaping never makes text shorter, and leaves it alone exactly when the size stays. */
  lemma {:induction false} SameSizeSameText(mangled: bool, text: seq<byte>)
    ensures |Escaped(mangled, text)| >= |text|
    ensures |Escaped(mangled, text)| == |text| ==> Escaped(mangled, text) == text
  {
    hide Code, Escapes;
    if text != [] {
      var n := Taken(mangled, text);
      SameSizeSameText(mangled, text[n..]);
      CodeSize(mangled, text[0]);
      if Escapes(mangled, text[0]) == K {
        CodeKeeps(mangled, text[0]);
        assert text == [text[0]] + text[1..];
      }
    }
  }

  /** The size of the escaped text, in one pass. */
  method EscapedSize(mangled: bool, text: seq<byte>) returns (size: nat)
    ensures size == |Escaped(mangled, text)|
  {
    hide Escaped, Code;
    size := 0;
    var i := 0;
    assert text[0..] == text;
    while i < |text|
      invariant i <= |text| && size + |Escaped(mangled, text[i..])| == |Escaped(mangled, text)|
      decreases |text| - i
    {
      EscapedStep(mangled, text, i);
      CodeSize(mangled, text[i]);
      match Escapes(mangled, text[i]) {
        case K =>
          size := size + 1;
        case Z =>
          i := i + 1;
          size := size + 6;
        case X =>
          size := size + 6;
        case Letter(_) =>
          size := size + 2;
      }
      i := if i < |text| then i + 1 else i;
    }
    EscapedNone(mangled);
    assert text[|text|..] == [];
  }

  lemma EscapedNone(mangled: bool)
    ensures Escaped(mangled, []) == []
  {
  }

  lemma CodeSize(mangled: bool, c: byte)
    ensures |Code(mangled, c)| == match Escapes(mangled, c) case K => 1 case Z => 6 case X => 6 case Letter(_) => 2
  {
  }

  lemma CodeKeeps(mangled: bool, c: byte)
    requires Escapes(mangled, c) == K
    ensures Code(mangled, c) == [c]
  {
  }

  lemma EscapedStep(mangled: bool, text: seq<byte>, i: nat)
    requires i < |text|
    ensures var n := Taken(mangled, text[i..]);
            && i + n <= |text| && n == (if Escapes(mangled, text[i]) == Z && i + 1 < |text| then 2 else 1)
            && Escaped(mangled, text[i..]) == Code(mangled, text[i]) + Escaped(mangled, text[i + n..])
  {
    var rest := text[i..];
    assert rest[Taken(mangled, rest)..] == text[i + Taken(mangled, rest)..];
  }

  /** Write s at position o. */
  method Put(out: array<byte>, o: nat, s: seq<byte>)
    requires o + |s| <= out.Length
    modifies out
    ensures out[..o + |s|] == old(out[..o]) + s
  {
    var j := 0;
    while j < |s|
      invariant j <= |s| && out[..o] == old(out[..o]) && out[o..o + j] == s[..j]
    {
      out[o + j] := s[j];
      assert out[o..o + j + 1] == out[o..o + j] + [s[j]];
      assert s[..j + 1] == s[..j] + [s[j]];
      j := j + 1;
    }
    assert s[..|s|] == s;
    assert out[..o + |s|] == out[..o] + out[o..o + |s|];
  }

  /** Escape text into a buffer of exactly the size announced for it; text that needs no escaping
      is copied as it is. */
  method Escape(mangled: bool, text: seq<byte>, out: array<byte>)
    requires out.Length == |Escaped(mangled, text)|
    modifies out
    ensures out[..] == Escaped(mangled, text)
  {
    hide Escaped, Code;
    SameSizeSameText(mangled, text);
    if out.Length == |text| {
      Put(out, 0, text);
      assert out[..|text|] == out[..];
    } else {
      EscapeBytes(mangled, text, out);
    }
  }

  method EscapeBytes(mangled: bool, text: seq<byte>, out: array<byte>)
    requires out.Length == |Escaped(mangled, text)|
    modifies out
    ensures out[..] == Escaped(mangled, text)
  {
    hide Escaped, Code, Escapes, Taken;
    var o, i := 0, 0;
    assert text[0..] == text && out[..0] == [];
    while i < |text|
      invariant i <= |text| && 0 <= o <= out.Length && out[..o] + Escaped(mangled, text[i..]) == Escaped(mangled, text)
      decreases |text| - i
    {
      var c := text[i];
      EscapedStep(mangled, text, i);
      ghost var done := out[..o];
      SizeLeft(done, Escaped(mangled, text[i..]), Escaped(mangled, text));
      if Escapes(mangled, c) == Z {
        i := i + 1;
      }
      Put(out, o, Code(mangled, c));
      i := if i < |text| then i + 1 else i;
      Joined(done, Code(mangled, c), Escaped(mangled, text[i..]));
      o := o + |Code(mangled, c)|;
    }
    EscapedNone(mangled);
    assert text[|text|..] == [];
    assert out[..o] == out[..];
  }

  lemma SizeLeft(done: seq<byte>, rest: seq<byte>, all: seq<byte>)
    requires done + rest == all
    ensures |done| + |rest| == |all|
  {
  }

  lemma Joined(a: seq<byte>, b: seq<byte>, c: seq<byte>)
    ensures a + (b + c) == (a + b) + c
  {
  }

  /* ------------------------------------------------------------ reading JSON strings */

  function HexValue(c: byte): Option<nat> {
    if 0x30 <= c <= 0x39 then Some(c - 0x30)
    else if 0x61 <= c <= 0x66 then Some(c - 0x61 + 10)
    else if 0x41 <= c <= 0x46 then Some(c - 0x41 + 10)
    else None
  }

  /** The byte a two-character escape stands for (section 7 of RFC 8259). */
  function LetterValue(c: byte): Option<byte> {
    if c == 0x22 || c == 0x5C || c == 0x2F then Some(c)
    else if c == 0x62 then Some(8)
    else if c == 0x66 then Some(12)
    else if c == 0x6E then Some(10)
    else if c == 0x72 then Some(13)
    else if c == 0x74 then Some(9)
    else None
  }

  /** The four hexadecimal digits that start s, as a number. */
  function CodePoint(s: seq<byte>): Option<nat>
    requires |s| >= 4
  {
    var a, b, c, d := HexValue(s[0]), HexValue(s[1]), HexValue(s[2]), HexValue(s[3]);
    if a.Some? && b.Some? && c.Some? && d.Some? then
      Some(((a.value * 16 + b.value) * 16 + c.value) * 16 + d.value)
    else None
  }

  /** UTF-8 for the code points below 0x800; the tables produce none above. */
  function Utf8(cp: nat): Option<seq<byte>> {
    if cp < 0x80 then Some([cp])
    else if cp < 0x800 then Some([0xC0 + cp / 64, 0x80 + cp % 64])
    else None
  }

  function Cons(a: seq<byte>, r: Option<seq<byte>>): Option<seq<byte>> {
    match r case None => None case Some(s) => Some(a + s)
  }

  /** The bytes that the inside of a JSON string stands for (section 7 of RFC 8259); None when it
      is not legal there: control characters, quotes and backslashes have to be escaped. */
  function Unescape(js: seq<byte>): Option<seq<byte>> {
    if js == [] then Some([])
    else if js[0] < 0x20 || js[0] == 0x22 then None
    else if js[0] != 0x5C then Cons([js[0]], Unescape(js[1..]))
    else if |js| < 2 then None
    else if js[1] == 0x75 then
      if |js| < 6 then None
      else
        var cp := CodePoint(js[2..]);
        if cp.None? || Utf8(cp.value).None? then None else Cons(Utf8(cp.value).value, Unescape(js[6..]))
    else if LetterValue(js[1]).None? then None
    else Cons([LetterValue(js[1]).value], Unescape(js[2..]))
  }

  lemma HexBack(c: nat)
    requires c < 16
    ensures HexValue(Hex(c)) == Some(c)
  {
  }

  lemma UnescapeHex(c: byte, rest: seq<byte>)
    requires c < 0x20
    ensures Unescape(HexEscape(c) + rest) == Cons([c], Unescape(rest))
  {
    var js := HexEscape(c) + rest;
    HexBack(c / 16);
    HexBack(c % 16);
    assert js[2..][0] == 0x30 && js[2..][1] == 0x30 && js[2..][2] == Hex(c / 16) && js[2..][3] == Hex(c % 16);
    assert CodePoint(js[2..]) == Some(c);
    assert js[6..] == rest;
  }

  /** Reading back one byte. */
  lemma UnescapeCode(mangled: bool, c: byte, rest: seq<byte>)
    ensures Unescape(Code(mangled, c) + rest) == Cons([c], Unescape(rest))
  {
    hide HexEscape;
    var js := Code(mangled, c) + rest;
    match Escapes(mangled, c) {
      case K =>
        assert js[1..] == rest;
      case Z =>
        UnescapeHex(c, rest);
      case X =>
        UnescapeHex(c, rest);
      case Letter(l) =>
        assert js[0] == 0x5C && js[1] == l && js[2..] == rest;
        assert LetterValue(l) == Some(c);
    }
  }

  /** Plain text: unescaping gives back the text. */
  lemma {:induction false} UnescapeEscaped(text: seq<byte>)
    ensures Unescape(Escaped(false, text)) == Some(text)
  {
    hide Unescape, Code;
    if text == [] {
      UnescapeNone();
    } else {
      assert text[Taken(false, text)..] == text[1..];
      UnescapeEscaped(text[1..]);
      UnescapeCode(false, text[0], Escaped(false, text[1..]));
      assert text == [text[0]] + text[1..];
    }
  }

  lemma UnescapeNone()
    ensures Unescape([]) == Some([])
  {
  }

  /** Mangled text: unescaping gives back the string that was mangled. */
  lemma {:induction false} UnescapeBody(s: seq<byte>)
    ensures Unescape(Escaped(true, Body(s))) == Some(s)
  {
    hide Unescape, Code;
    if s == [] {
      UnescapeNone();
    } else {
      var body := Body(s);
      assert body[0] == s[0] && body[Taken(true, body)..] == Body(s[1..]);
      UnescapeBody(s[1..]);
      UnescapeCode(true, s[0], Escaped(true, Body(s[1..])));
      assert s == [s[0]] + s[1..];
    }
  }

  /** A mangled string is escaped without its terminator, and is read back as the original. */
  method EscapeMangled(s: seq<byte>) returns (out: array<byte>)
    ensures Unescape(out[..]) == Some(s)
  {
    var m := MangleString(s);
    MangleBody(s);
    var text := m[..|m| - 2];
    assert text == Body(s);
    var size := EscapedSize(true, text);
    out := new byte[size](_ => 0);
    Escape(true, text, out);
    UnescapeBody(s);
  }
}
