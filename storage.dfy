/** How the program stores its records on disk: every record (configuration,
    daily log) is a JSON document written as Base64 text (`encode_data`,
    `decode_data`), and the daily log of a date lives in a file whose name is
    the date in unpadded Base64 with '/' replaced by '_', prefixed with 'd'
    and suffixed with '.dat' (`get_log_filename`, `date_from_log_filename`).
    The data directory is a map from file name to file text; reading a file
    that is not in the map is the `exists()` check failing. */
module Storage {
  import opened Common
  import Base64
  import Utf8
  import opened JsonCodec

  /** The data directory: file name to file contents. */
  type Store = map<string, string>

  // ---------------------------------------------------------------- codec

  /** `encode_data`: JSON text, as UTF-8, in Base64. */
  function EncodeData(v: Json): (r: string)
    ensures |r| % 4 == 0
    ensures forall i :: 0 <= i < |r| ==> Base64.InAlphabet(r[i]) || r[i] == '='
  {
    var bytes := Utf8.Encode(Serialize(v));
    Base64.EncodeText(bytes);
    Base64.Encode(bytes)
  }

  /** `decode_data`: None wherever the source catches an error (bad Base64,
      bad UTF-8, bad JSON). */
  function DecodeData(s: string): Option<Json>
  {
    match Base64.Decode(s)
    case None => None
    case Some(bytes) =>
      match Utf8.Decode(bytes)
      case None => None
      case Some(text) => Loads(text)
  }

  /** Whatever is written can be read back unchanged. */
  lemma DecodeEncodeData(v: Json)
    ensures DecodeData(EncodeData(v)) == Some(v)
  {
    Utf8.DecodeEncode(Serialize(v));
    Base64.DecodeEncode(Utf8.Encode(Serialize(v)));
    LoadsSerialize(v);
  }

  // ---------------------------------------------------------------- file names

  /** `s.replace(c, "")`. */
  function RemoveChar(s: string, c: char): (r: string)
    ensures |r| <= |s|
    ensures forall i :: 0 <= i < |r| ==> r[i] != c
    ensures forall i :: 0 <= i < |r| ==> r[i] in s
  {
    if s == [] then []
    else (if s[0] == c then [] else [s[0]]) + RemoveChar(s[1..], c)
  }

  /** `s.replace(a, b)` for single characters. */
  function ReplaceChar(s: string, a: char, b: char): (r: string)
    ensures |r| == |s|
    ensures forall i :: 0 <= i < |s| ==> r[i] == (if s[i] == a then b else s[i])
  {
    if s == [] then [] else [if s[0] == a then b else s[0]] + ReplaceChar(s[1..], a, b)
  }

  function Repeat(c: char, n: nat): (r: string)
    ensures |r| == n && forall i :: 0 <= i < n ==> r[i] == c
  {
    if n == 0 then [] else [c] + Repeat(c, n - 1)
  }

  /** A character that may appear between the 'd' and the '.dat' of a log file
      name: the Base64 alphabet with '_' in place of '/'. */
  predicate NameChar(c: char)
  {
    c == '_' || (Base64.InAlphabet(c) && c != '/')
  }

  /** `get_log_filename`. */
  function LogFileName(date: string): (r: string)
    ensures |r| >= 5 && r[0] == 'd' && r[|r| - 4..] == ".dat"
    ensures forall i :: 1 <= i < |r| - 4 ==> NameChar(r[i])
  {
    var e := Base64.Encode(Utf8.Encode(date));
    var middle := ReplaceChar(RemoveChar(e, '='), '/', '_');
    assert forall i :: 0 <= i < |middle| ==> NameChar(middle[i]) by {
      forall i | 0 <= i < |middle| ensures NameChar(middle[i]) {
        var stripped := RemoveChar(e, '=');
        assert stripped[i] in e;
      }
    }
    var r := "d" + middle + ".dat";
    assert r[|r| - 4..] == ".dat";
    assert forall i :: 1 <= i < |r| - 4 ==> r[i] == middle[i - 1];
    r
  }

  predicate StartsEnds(name: string)
  {
    |name| >= 1 && name[0] == 'd' && |name| >= 4 && name[|name| - 4..] == ".dat"
  }

  /** `date_from_log_filename`: None for a name of another shape and for a
      name whose middle is not the Base64 of UTF-8 text. */
  function DateFromLogFileName(name: string): Option<string>
  {
    if StartsEnds(name) then
      assert name[|name| - 4] == '.';
      DecodeMiddle(name[1..|name| - 4])
    else None
  }

  /** The date text behind the middle part of a log file name: '/' restored,
      '=' padding restored to a multiple of four, Base64 then UTF-8 decoded. */
  function DecodeMiddle(middle: string): Option<string>
  {
    var encoded := ReplaceChar(middle, '_', '/');
    var padding := 4 - |encoded| % 4;
    var padded := if padding != 4 then encoded + Repeat('=', padding) else encoded;
    match Base64.Decode(padded)
    case None => None
    case Some(bytes) => Utf8.Decode(bytes)
  }

  lemma {:induction false} RemovePadding(e: string, pads: nat)
    requires Base64.Shape(e, pads)
    ensures RemoveChar(e, '=') == e[..|e| - pads]
  {
    if e != [] {
      if |e| > pads {
        assert Base64.InAlphabet(e[0]);
        assert Base64.Shape(e[1..], pads);
        RemovePadding(e[1..], pads);
        assert e[..|e| - pads] == [e[0]] + e[1..][..|e| - 1 - pads];
      } else {
        assert e[0] == '=';
        assert Base64.Shape(e[1..], pads - 1);
        RemovePadding(e[1..], pads - 1);
      }
    }
  }

  lemma {:induction false} ReplaceBack(s: string, a: char, b: char)
    requires forall i :: 0 <= i < |s| ==> s[i] != b
    ensures ReplaceChar(ReplaceChar(s, a, b), b, a) == s
  {
  }

  /** Re-padding the unpadded text of an encoding, as `date_from_log_filename`
      does, gives the encoding back. */
  lemma RestorePadding(e: string, pads: nat)
    requires Base64.Shape(e, pads) && |e| % 4 == 0 && pads < 4
    ensures var s := e[..|e| - pads];
            var padding := 4 - |s| % 4;
            (if padding != 4 then s + Repeat('=', padding) else s) == e
  {
    var s := e[..|e| - pads];
    if pads != 0 {
      assert |s| % 4 == 4 - pads;
      assert s + Repeat('=', pads) == e;
    }
  }

  /** The middle of a log file name is the padded-off encoding with '_' for '/'. */
  lemma LogFileNameMiddle(date: string)
    ensures var e := Base64.Encode(Utf8.Encode(date));
            var name := LogFileName(date);
            ReplaceChar(name[1..|name| - 4], '_', '/') == e[..|e| - Base64.PadCount(|Utf8.Encode(date)|)]
  {
    var e := Base64.Encode(Utf8.Encode(date));
    var pads := Base64.PadCount(|Utf8.Encode(date)|);
    var stripped := RemoveChar(e, '=');
    RemovePadding(e, pads);
    var middle := ReplaceChar(stripped, '/', '_');
    var name := LogFileName(date);
    assert name == "d" + middle + ".dat";
    assert name[1..|name| - 4] == middle;
    assert forall i :: 0 <= i < |stripped| ==> stripped[i] != '_' by {
      forall i | 0 <= i < |stripped| ensures stripped[i] != '_' {
        assert stripped[i] == e[i] && Base64.InAlphabet(e[i]);
      }
    }
    ReplaceBack(stripped, '/', '_');
  }

  /** `date_from_log_filename(get_log_filename(d)) == d` for every date text:
      the file name of a date tells the date back. */
  lemma DateFromLogFileNameOf(date: string)
    ensures DateFromLogFileName(LogFileName(date)) == Some(date)
  {
    var bytes := Utf8.Encode(date);
    var e := Base64.Encode(bytes);
    var pads := Base64.PadCount(|bytes|);
    var name := LogFileName(date);
    assert StartsEnds(name);
    assert DateFromLogFileName(name) == DecodeMiddle(name[1..|name| - 4]);
    LogFileNameMiddle(date);
    EncodedShape(bytes);
    RestorePadding(e, pads);
    Base64.DecodeEncode(bytes);
    Utf8.DecodeEncode(date);
    DecodeMiddleOf(name[1..|name| - 4], e, pads, bytes, date);
  }

  lemma EncodedShape(bs: seq<byte>)
    ensures |Base64.Encode(bs)| % 4 == 0
    ensures Base64.PadCount(|bs|) < 4 && Base64.Shape(Base64.Encode(bs), Base64.PadCount(|bs|))
  {
    var k := (|bs| + 2) / 3;
    assert |Base64.Encode(bs)| == k * 4;
    TimesFourMod(k);
  }

  lemma TimesFourMod(k: int)
    ensures (k * 4) % 4 == 0
  {
  }

  lemma DecodeMiddleOf(middle: string, e: string, pads: nat, bytes: seq<byte>, date: string)
    requires pads <= |e| && ReplaceChar(middle, '_', '/') == e[..|e| - pads]
    requires var s := e[..|e| - pads];
             var padding := 4 - |s| % 4;
             (if padding != 4 then s + Repeat('=', padding) else s) == e
    requires Base64.Decode(e) == Some(bytes) && Utf8.Decode(bytes) == Some(date)
    ensures DecodeMiddle(middle) == Some(date)
  {
  }

  /** Distinct dates never share a log file. */
  lemma LogFileNameInjective(d1: string, d2: string)
    requires LogFileName(d1) == LogFileName(d2)
    ensures d1 == d2
  {
    DateFromLogFileNameOf(d1);
    DateFromLogFileNameOf(d2);
  }

  // ---------------------------------------------------------------- loading

  /** `load_date` (both the desktop and the API copy): the decoded log of a
      date, None when the file is missing or unreadable. */
  function LoadDate(store: Store, date: string): (r: Option<Json>)
    ensures LogFileName(date) !in store ==> r == None
  {
    var name := LogFileName(date);
    if name in store then DecodeData(store[name]) else None
  }

  /** A record written under a date's file name is what loading that date gives. */
  lemma LoadDateAfterWrite(store: Store, date: string, v: Json)
    ensures LoadDate(store[LogFileName(date) := EncodeData(v)], date) == Some(v)
  {
    DecodeEncodeData(v);
  }

  /** Writing one date's file leaves every other date's log as it was. */
  lemma LoadDateOtherWrite(store: Store, date: string, other: string, v: Json)
    requires other != date
    ensures LoadDate(store[LogFileName(date) := EncodeData(v)], other) == LoadDate(store, other)
  {
    if LogFileName(other) == LogFileName(date) {
      LogFileNameInjective(other, date);
    }
  }
}
