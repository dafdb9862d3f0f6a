/**
 * File.cs: a source document opened for indexing, and the deterministic
 * prefix of its search-document ids.
 */
module Files {
  import opened Wrappers
  import opened Text
  import Paths

  type byte = x: int | 0 <= x < 256

  /** The stream a File wraps: a FileStream, known by the OS path it was opened with. */
  datatype Stream = FileStream(name: string)

  /** Access-control lists: principal to permission tags. */
  type Acls = map<string, seq<string>>

  datatype File = File(content: Stream, acls: Acls)
  {
    /** File.Filename: the file-name part of the stream's path. */
    function Filename(): string
    {
      Paths.GetFileName(content.name)
    }
  }

  datatype FileError = ArgumentNull(paramName: string)

  /**
   * The File constructor: a null stream is rejected with ArgumentNullException;
   * missing ACLs default to an empty dictionary.
   */
  function NewFile(content: Option<Stream>, acls: Option<Acls> := None): (r: Result<File, FileError>)
    ensures r.Err? <==> content.None?
    ensures r.Err? ==> r.error == ArgumentNull("content")
    ensures r.Ok? ==> r.value.content == content.value
    ensures r.Ok? && acls.None? ==> r.value.acls == map[]
    ensures r.Ok? && acls.Some? ==> r.value.acls == acls.value
  {
    match content
    case None => Err(ArgumentNull("content"))
    case Some(stream) => Ok(File(stream, if acls.Some? then acls.value else map[]))
  }

  // ---------------------------------------------------------------------
  // Replacing every character outside ASCII letters, digits, '_' and '-' by '_'
  // ---------------------------------------------------------------------

  /** The characters the regular expression's class [0-9a-zA-Z_-] accepts. */
  predicate IdChar(c: char)
  {
    '0' <= c <= '9' || 'a' <= c <= 'z' || 'A' <= c <= 'Z' || c == '_' || c == '-'
  }

  /** UTF-16 code units of a character: .NET strings and regular expressions work on these. */
  function Utf16Units(c: char): nat
  {
    if c as int >= 0x10000 then 2 else 1
  }

  function Utf16Length(s: string): nat
  {
    if s == [] then 0 else Utf16Units(s[0]) + Utf16Length(s[1..])
  }

  /** One character's replacement: kept if accepted, else one '_' per UTF-16 code unit. */
  function SanitizeChar(c: char): string
  {
    if IdChar(c) then [c] else if Utf16Units(c) == 2 then "__" else "_"
  }

  function Sanitize(s: string): (r: string)
    ensures |r| == Utf16Length(s)
    ensures forall i :: 0 <= i < |r| ==> IdChar(r[i])
  {
    if s == [] then [] else SanitizeChar(s[0]) + Sanitize(s[1..])
  }

  /** A string made only of accepted characters is left unchanged. */
  lemma {:induction false} SanitizeKeepsIdString(s: string)
    requires forall i :: 0 <= i < |s| ==> IdChar(s[i])
    ensures Sanitize(s) == s
  {
    if s != [] {
      SanitizeKeepsIdString(s[1..]);
      assert s == [s[0]] + s[1..];
    }
  }

  /** Sanitizing twice is sanitizing once. */
  lemma SanitizeIdempotent(s: string)
    ensures Sanitize(Sanitize(s)) == Sanitize(s)
  {
    SanitizeKeepsIdString(Sanitize(s));
  }

  /**
   * For a name without characters outside the Basic Multilingual Plane, the
   * sanitized name has the same length and differs only where a character is
   * not accepted, which becomes '_'.
   */
  lemma {:induction false} SanitizeBmp(s: string)
    requires forall i :: 0 <= i < |s| ==> s[i] as int < 0x10000
    ensures |Sanitize(s)| == |s|
    ensures forall i :: 0 <= i < |s| ==> Sanitize(s)[i] == if IdChar(s[i]) then s[i] else '_'
  {
    if s != [] {
      SanitizeBmp(s[1..]);
      assert forall i :: 1 <= i < |s| ==> Sanitize(s)[i] == Sanitize(s[1..])[i - 1];
    }
  }

  // ---------------------------------------------------------------------
  // The UTF-8 bytes of a file name
  // ---------------------------------------------------------------------

  /** The UTF-8 encoding of one Unicode scalar value. */
  function Utf8Char(c: char): (bs: seq<byte>)
    ensures |bs| == if c as int < 0x80 then 1 else if c as int < 0x800 then 2 else if c as int < 0x10000 then 3 else 4
    ensures forall i :: 1 <= i < |bs| ==> 0x80 <= bs[i] < 0xC0
  {
    var cp := c as int;
    if cp < 0x80 then [cp]
    else if cp < 0x800 then [0xC0 + cp / 64, 0x80 + cp % 64]
    else if cp < 0x10000 then [0xE0 + cp / 64 / 64, 0x80 + cp / 64 % 64, 0x80 + cp % 64]
    else [0xF0 + cp / 64 / 64 / 64, 0x80 + cp / 64 / 64 % 64, 0x80 + cp / 64 % 64, 0x80 + cp % 64]
  }

  function Utf8(s: string): seq<byte>
  {
    if s == [] then [] else Utf8Char(s[0]) + Utf8(s[1..])
  }

  /** The length of a UTF-8 sequence as announced by its lead byte. */
  function SequenceLength(lead: byte): nat
  {
    if lead < 0x80 then 1 else if lead < 0xE0 then 2 else if lead < 0xF0 then 3 else 4
  }

  /** The scalar value a UTF-8 sequence of one to four bytes stands for. */
  function DecodeSequence(bs: seq<byte>): int
    requires 1 <= |bs| <= 4
  {
    var b := seq(|bs|, i requires 0 <= i < |bs| => bs[i] as int);
    if |b| == 1 then b[0]
    else if |b| == 2 then (b[0] - 0xC0) * 64 + (b[1] - 0x80)
    else if |b| == 3 then ((b[0] - 0xE0) * 64 + (b[1] - 0x80)) * 64 + (b[2] - 0x80)
    else (((b[0] - 0xF0) * 64 + (b[1] - 0x80)) * 64 + (b[2] - 0x80)) * 64 + (b[3] - 0x80)
  }

  /** A character's encoding announces its own length and decodes back to the character. */
  lemma Utf8CharDecodes(c: char)
    ensures SequenceLength(Utf8Char(c)[0]) == |Utf8Char(c)|
    ensures DecodeSequence(Utf8Char(c)) == c as int
  {
    var cp := c as int;
    var q1 := cp / 64;
    var q2 := q1 / 64;
    assert cp == q1 * 64 + cp % 64;
    assert q1 == q2 * 64 + q1 % 64;
    assert q2 == q2 / 64 * 64 + q2 % 64;
  }

  /** Distinct names have distinct UTF-8 encodings. */
  lemma {:induction false} Utf8Injective(s: string, t: string)
    requires Utf8(s) == Utf8(t)
    ensures s == t
  {
    if s != [] && t != [] {
      var a, b := Utf8Char(s[0]), Utf8Char(t[0]);
      Utf8CharDecodes(s[0]);
      Utf8CharDecodes(t[0]);
      assert a[0] == Utf8(s)[0] == Utf8(t)[0] == b[0];
      assert |a| == |b|;
      assert a == Utf8(s)[..|a|] == Utf8(t)[..|b|] == b;
      assert s[0] as int == t[0] as int;
      assert Utf8(s[1..]) == Utf8(s)[|a|..] == Utf8(t)[|b|..] == Utf8(t[1..]);
      Utf8Injective(s[1..], t[1..]);
      assert s == [s[0]] + s[1..] && t == [t[0]] + t[1..];
    }
  }

  // ---------------------------------------------------------------------
  // Upper-case hexadecimal of those bytes, two digits per byte, without separators
  // ---------------------------------------------------------------------

  predicate IsUpperHexDigit(c: char)
  {
    '0' <= c <= '9' || 'A' <= c <= 'F'
  }

  function HexDigit(d: nat): (c: char)
    requires d < 16
    ensures IsUpperHexDigit(c) && HexDigitValue(c) == d
  {
    if d < 10 then ('0' as int + d) as char else ('A' as int + d - 10) as char
  }

  function HexDigitValue(c: char): nat
    requires IsUpperHexDigit(c)
  {
    if c <= '9' then c as int - '0' as int else c as int - 'A' as int + 10
  }

  /** Two upper-case hexadecimal digits, high nibble first. */
  function ByteHex(b: byte): string
  {
    [HexDigit(b / 16), HexDigit(b % 16)]
  }

  /** BitConverter.ToString: each byte as two digits, bytes separated by '-'. */
  function BitConverterToString(bs: seq<byte>): string
  {
    if bs == [] then ""
    else if |bs| == 1 then ByteHex(bs[0])
    else ByteHex(bs[0]) + "-" + BitConverterToString(bs[1..])
  }

  /** String.Replace("-", ""): drop every '-'. */
  function RemoveDashes(s: string): (r: string)
    ensures '-' !in r
  {
    if s == [] then "" else (if s[0] == '-' then "" else [s[0]]) + RemoveDashes(s[1..])
  }

  /** Removing the dashes keeps every other character, as often as it occurs. */
  lemma {:induction false} RemoveDashesKeepsOthers(s: string, c: char)
    requires c != '-'
    ensures multiset(RemoveDashes(s))[c] == multiset(s)[c]
  {
    if s != [] {
      RemoveDashesKeepsOthers(s[1..], c);
      assert s == [s[0]] + s[1..];
    }
  }

  /** Upper-case hexadecimal of a byte string, two digits per byte, no separators. */
  function Hex(bs: seq<byte>): (h: string)
    ensures |h| == 2 * |bs|
    ensures forall i :: 0 <= i < |h| ==> IsUpperHexDigit(h[i])
  {
    if bs == [] then "" else ByteHex(bs[0]) + Hex(bs[1..])
  }

  lemma {:induction false} RemoveDashesAppend(a: string, b: string)
    ensures RemoveDashes(a + b) == RemoveDashes(a) + RemoveDashes(b)
  {
    if a != [] {
      assert (a + b)[1..] == a[1..] + b;
      RemoveDashesAppend(a[1..], b);
    } else {
      assert a + b == b;
    }
  }

  /** Removing the separators from BitConverter's output leaves the plain hexadecimal string. */
  lemma {:induction false} BitConverterWithoutDashes(bs: seq<byte>)
    ensures RemoveDashes(BitConverterToString(bs)) == Hex(bs)
  {
    if bs != [] {
      var h := ByteHex(bs[0]);
      assert RemoveDashes(h) == h by {
        assert h[0] != '-' && h[1] != '-';
        assert h[1..][1..] == [];
        assert RemoveDashes(h[1..]) == [h[1]];
      }
      if |bs| == 1 {
        assert bs[1..] == [];
      } else {
        BitConverterWithoutDashes(bs[1..]);
        RemoveDashesAppend(h + "-", BitConverterToString(bs[1..]));
        RemoveDashesAppend(h, "-");
      }
    }
  }

  /** Reads two hexadecimal digits per byte. */
  function UnHex(h: string): seq<byte>
    requires |h| % 2 == 0
    requires forall i :: 0 <= i < |h| ==> IsUpperHexDigit(h[i])
  {
    if h == [] then []
    else
      var hi, lo := HexDigitValue(h[0]), HexDigitValue(h[1]);
      [hi * 16 + lo] + UnHex(h[2..])
  }

  lemma {:induction false} HexRoundTrip(bs: seq<byte>)
    ensures UnHex(Hex(bs)) == bs
  {
    if bs != [] {
      var h := Hex(bs);
      assert h[2..] == Hex(bs[1..]);
      HexRoundTrip(bs[1..]);
      assert HexDigitValue(h[0]) * 16 + HexDigitValue(h[1]) == bs[0] / 16 * 16 + bs[0] % 16 == bs[0];
    }
  }

  // ---------------------------------------------------------------------
  // File.FilenameToId
  // ---------------------------------------------------------------------

  /**
   * File.FilenameToId, for the file name `filename`: "file-", the sanitized
   * name, "-", and the hexadecimal of the name's UTF-8 bytes.
   */
  function FilenameToId(filename: string): (id: string)
    ensures id == "file-" + Sanitize(filename) + "-" + Hex(Utf8(filename))
    ensures |id| == 6 + Utf16Length(filename) + 2 * |Utf8(filename)|
    ensures forall i :: 5 <= i < |id| ==> IdChar(id[i])
  {
    var filenameAscii := Sanitize(filename);
    var filenameHash := RemoveDashes(BitConverterToString(Utf8(filename)));
    BitConverterWithoutDashes(Utf8(filename));
    "file-" + filenameAscii + "-" + filenameHash
  }

  /** The id determines the file name: distinct names get distinct ids. */
  lemma FilenameToIdInjective(a: string, b: string)
    requires FilenameToId(a) == FilenameToId(b)
    ensures a == b
  {
    var ha, hb := Hex(Utf8(a)), Hex(Utf8(b));
    assert '-' !in ha && '-' !in hb;
    assert ("file-" + Sanitize(a)) + ['-'] + ha == ("file-" + Sanitize(b)) + ['-'] + hb;
    SplitAtLastSeparator("file-" + Sanitize(a), ha, "file-" + Sanitize(b), hb, '-');
    HexRoundTrip(Utf8(a));
    HexRoundTrip(Utf8(b));
    Utf8Injective(a, b);
  }
}
