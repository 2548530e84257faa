/** JSON values as the source stores them, and a serialise/parse pair standing
    in for `json.dumps` / `json.loads`. The pair is not the JSON text grammar
    of RFC 8259: it is a self-delimiting text form (a tag character, lengths in
    decimal) that has the two properties the source relies on: parsing gives
    back exactly what was serialised, and text that is not a complete
    serialised value is rejected (`json.JSONDecodeError`, `None` here).
    Numbers are integers or decimal fractions (`digits` over ten to the
    `scale`, the way the number is written); objects keep their members in insertion order, as
    Python dicts do. */
module JsonCodec {
  import opened Common

  datatype Json =
    | JNull
    | JBool(b: bool)
    | JInt(i: int)
    | JDec(digits: int, scale: nat)
    | JStr(s: string)
    | JArr(items: seq<Json>)
    | JObj(members: seq<Member>)

  datatype Member = Member(key: string, value: Json)

  /** Python truthiness of a decoded value (`if data:`). */
  predicate Truthy(v: Json)
  {
    match v
    case JNull => false
    case JBool(b) => b
    case JInt(i) => i != 0
    case JDec(d, _) => d != 0
    case JStr(s) => s != []
    case JArr(items) => items != []
    case JObj(ms) => ms != []
  }

  /** `d.get(key)` on an object: the value of the last member with that key
      (what `json.loads` keeps for a repeated key). */
  function Lookup(ms: seq<Member>, key: string): (r: Option<Json>)
    ensures r.Some? <==> exists k :: 0 <= k < |ms| && ms[k].key == key
    ensures r.Some? ==> exists k :: 0 <= k < |ms| && ms[k] == Member(key, r.value)
  {
    if ms == [] then None
    else if ms[|ms| - 1].key == key then Some(ms[|ms| - 1].value)
    else
      var r := Lookup(ms[..|ms| - 1], key);
      assert forall k :: 0 <= k < |ms| - 1 ==> ms[..|ms| - 1][k] == ms[k];
      r
  }

  /** With distinct keys, `d.get(key)` is the value stored under that key. */
  lemma LookupDistinct(ms: seq<Member>, k: int)
    requires 0 <= k < |ms|
    requires forall i, j :: 0 <= i < j < |ms| ==> ms[i].key != ms[j].key
    ensures Lookup(ms, ms[k].key) == Some(ms[k].value)
  {
  }

  // ---------------------------------------------------------------- writing

  function StrText(s: string): string
  {
    NatToString(|s|) + ":" + s
  }

  /** The stand-in for `json.dumps`. */
  function Serialize(v: Json): string
  {
    match v
    case JNull => "n"
    case JBool(b) => if b then "t" else "f"
    case JInt(i) => "i" + IntToString(i) + ";"
    case JDec(d, k) => "d" + IntToString(d) + ";" + NatToString(k) + ";"
    case JStr(s) => "s" + StrText(s)
    case JArr(items) => "a" + NatToString(|items|) + ":" + SerializeItems(items)
    case JObj(ms) => "o" + NatToString(|ms|) + ":" + SerializeMembers(ms)
  }

  function SerializeItems(items: seq<Json>): string
  {
    if items == [] then "" else Serialize(items[0]) + SerializeItems(items[1..])
  }

  function SerializeMembers(ms: seq<Member>): string
  {
    if ms == [] then ""
    else StrText(ms[0].key) + Serialize(ms[0].value) + SerializeMembers(ms[1..])
  }

  // ---------------------------------------------------------------- reading

  /** How many decimal digits `s` starts with. */
  function DigitRun(s: string): (n: nat)
    ensures n <= |s| && AllDigits(s[..n])
    ensures n < |s| ==> !IsDigit(s[n])
  {
    if s == [] || !IsDigit(s[0]) then 0
    else
      var n := DigitRun(s[1..]) + 1;
      assert s[..n] == [s[0]] + s[1..][..n - 1];
      n
  }

  /** A non-empty run of digits followed by `term`; the number and the rest. */
  function ParseNat(s: string, term: char): (r: Option<(nat, string)>)
    ensures r.Some? ==> |r.value.1| < |s|
  {
    var n := DigitRun(s);
    if 0 < n < |s| && s[n] == term then Some((DigitsValue(s[..n]), s[n + 1..])) else None
  }

  function ParseInt(s: string): (r: Option<(int, string)>)
    ensures r.Some? ==> |r.value.1| < |s|
  {
    if s != [] && s[0] == '-' then
      match ParseNat(s[1..], ';')
      case Some((n, rest)) => if n == 0 then None else Some((-(n as int), rest))
      case None => None
    else
      match ParseNat(s, ';')
      case Some((n, rest)) => if |s| > 1 && s[0] == '0' && n == 0 && s[1] != ';' then None else Some((n, rest))
      case None => None
  }

  function ParseStr(s: string): (r: Option<(string, string)>)
    ensures r.Some? ==> |r.value.1| < |s|
  {
    match ParseNat(s, ':')
    case None => None
    case Some((n, rest)) => if n <= |rest| then Some((rest[..n], rest[n..])) else None
  }

  function ParseDec(s: string): (r: Option<(Json, string)>)
    ensures r.Some? ==> |r.value.1| < |s|
  {
    match ParseInt(s)
    case None => None
    case Some((d, rest)) =>
      match ParseNat(rest, ';')
      case None => None
      case Some((k, rest')) => Some((JDec(d, k), rest'))
  }

  /** The stand-in for the parser inside `json.loads`: one value off the front. */
  function Parse(s: string): (r: Option<(Json, string)>)
    ensures r.Some? ==> |r.value.1| < |s|
    decreases |s|, 0
  {
    if s == [] then None
    else if s[0] == 'n' then Some((JNull, s[1..]))
    else if s[0] == 't' then Some((JBool(true), s[1..]))
    else if s[0] == 'f' then Some((JBool(false), s[1..]))
    else if s[0] == 'i' then
      match ParseInt(s[1..])
      case None => None
      case Some((i, rest)) => Some((JInt(i), rest))
    else if s[0] == 'd' then ParseDec(s[1..])
    else if s[0] == 's' then
      match ParseStr(s[1..])
      case None => None
      case Some((t, rest)) => Some((JStr(t), rest))
    else if s[0] == 'a' then ParseArr(s[1..])
    else if s[0] == 'o' then ParseObj(s[1..])
    else None
  }

  /** An array after its tag: the item count, then the items. */
  function ParseArr(s: string): (r: Option<(Json, string)>)
    ensures r.Some? ==> |r.value.1| < |s|
    decreases |s|, 2
  {
    match ParseNat(s, ':')
    case None => None
    case Some((n, rest)) =>
      match ParseItems(n, rest)
      case None => None
      case Some((items, rest')) => Some((JArr(items), rest'))
  }

  /** An object after its tag: the member count, then key and value pairs. */
  function ParseObj(s: string): (r: Option<(Json, string)>)
    ensures r.Some? ==> |r.value.1| < |s|
    decreases |s|, 2
  {
    match ParseNat(s, ':')
    case None => None
    case Some((n, rest)) =>
      match ParseMembers(n, rest)
      case None => None
      case Some((ms, rest')) => Some((JObj(ms), rest'))
  }

  function ParseItems(count: nat, s: string): (r: Option<(seq<Json>, string)>)
    ensures r.Some? ==> |r.value.1| <= |s|
    decreases |s|, 1, count
  {
    if count == 0 then Some(([], s))
    else
      match Parse(s)
      case None => None
      case Some((v, rest)) =>
        match ParseItems(count - 1, rest)
        case None => None
        case Some((vs, rest')) => Some(([v] + vs, rest'))
  }

  function ParseMembers(count: nat, s: string): (r: Option<(seq<Member>, string)>)
    ensures r.Some? ==> |r.value.1| <= |s|
    decreases |s|, 1, count
  {
    if count == 0 then Some(([], s))
    else
      match ParseStr(s)
      case None => None
      case Some((key, rest)) =>
        match Parse(rest)
        case None => None
        case Some((v, rest')) =>
          match ParseMembers(count - 1, rest')
          case None => None
          case Some((ms, rest'')) => Some(([Member(key, v)] + ms, rest''))
  }

  /** `json.loads`: exactly one value and nothing after it. */
  function Loads(s: string): Option<Json>
  {
    match Parse(s)
    case Some((v, rest)) => if rest == [] then Some(v) else None
    case None => None
  }

  // ---------------------------------------------------------------- round trip

  lemma {:induction false} DigitRunOf(n: nat, term: char, rest: string)
    requires !IsDigit(term)
    ensures DigitRun(NatToString(n) + [term] + rest) == |NatToString(n)|
  {
    var d := NatToString(n);
    DigitRunPrefix(d, [term] + rest);
    assert d + [term] + rest == d + ([term] + rest);
  }

  lemma {:induction false} DigitRunPrefix(d: string, t: string)
    requires AllDigits(d) && t != [] && !IsDigit(t[0])
    ensures DigitRun(d + t) == |d|
  {
    if d != [] {
      DigitRunPrefix(d[1..], t);
      assert (d + t)[1..] == d[1..] + t;
    }
  }

  lemma {:induction false} ParseNatOf(n: nat, term: char, rest: string)
    requires !IsDigit(term)
    ensures ParseNat(NatToString(n) + [term] + rest, term) == Some((n, rest))
  {
    var d := NatToString(n);
    var s := d + [term] + rest;
    DigitRunOf(n, term, rest);
    assert s[..|d|] == d;
    assert s[|d| + 1..] == rest;
  }

  lemma ParseIntOf(i: int, rest: string)
    ensures ParseInt(IntToString(i) + ";" + rest) == Some((i, rest))
  {
    if i < 0 {
      ParseNegativeOf(i, rest);
    } else {
      ParseNonNegativeOf(i, rest);
    }
  }

  lemma ParseNegativeOf(i: int, rest: string)
    requires i < 0
    ensures ParseInt(IntToString(i) + ";" + rest) == Some((i, rest))
  {
    var n: nat := -i;
    var d := NatToString(n);
    var s := IntToString(i) + ";" + rest;
    assert s == "-" + (d + [';'] + rest);
    ParseNatOf(n, ';', rest);
    assert s[1..] == d + [';'] + rest;
    assert ParseNat(s[1..], ';') == Some((n, rest));
  }

  lemma ParseNonNegativeOf(i: int, rest: string)
    requires i >= 0
    ensures ParseInt(IntToString(i) + ";" + rest) == Some((i, rest))
  {
    var s := IntToString(i) + ";" + rest;
    ParseNatOf(i, ';', rest);
    var d := NatToString(i);
    assert s == d + [';'] + rest;
    if |s| > 1 && s[0] == '0' && i == 0 {
      assert d == "0";
      assert s[1] == ';';
    }
  }

  lemma {:induction false} ParseStrOf(t: string, rest: string)
    ensures ParseStr(StrText(t) + rest) == Some((t, rest))
  {
    var s := StrText(t) + rest;
    ParseNatOf(|t|, ':', t + rest);
    assert s == NatToString(|t|) + [':'] + (t + rest);
    assert (t + rest)[..|t|] == t && (t + rest)[|t|..] == rest;
  }

  lemma ParseDecOf(d: int, k: nat, rest: string)
    ensures ParseDec(IntToString(d) + ";" + NatToString(k) + ";" + rest) == Some((JDec(d, k), rest))
  {
    ParseNatOf(k, ';', rest);
    ParseIntOf(d, NatToString(k) + ";" + rest);
    assert IntToString(d) + ";" + NatToString(k) + ";" + rest == IntToString(d) + ";" + (NatToString(k) + ";" + rest);
  }

  /** `json.loads(json.dumps(v))` gives back `v`, whatever follows it. */
  lemma {:induction false} ParseSerialize(v: Json, rest: string)
    ensures Parse(Serialize(v) + rest) == Some((v, rest))
    decreases v, 2
  {
    match v
    case JNull =>
    case JBool(b) =>
    case JInt(_) => ParseSerializeNumber(v, rest);
    case JDec(_, _) => ParseSerializeNumber(v, rest);
    case JStr(t) =>
      var s := Serialize(v) + rest;
      assert s[0] == 's' && s[1..] == StrText(t) + rest;
      ParseStrOf(t, rest);
    case JArr(items) =>
      ParseSerializeArr(items, rest);
    case JObj(ms) =>
      ParseSerializeObj(ms, rest);
  }

  lemma ParseSerializeNumber(v: Json, rest: string)
    requires v.JInt? || v.JDec?
    ensures Parse(Serialize(v) + rest) == Some((v, rest))
  {
    if v.JInt? {
      ParseSerializeInt(v.i, rest);
    } else {
      ParseSerializeDec(v.digits, v.scale, rest);
    }
  }

  lemma ParseSerializeInt(i: int, rest: string)
    ensures Parse(Serialize(JInt(i)) + rest) == Some((JInt(i), rest))
  {
    var s := Serialize(JInt(i)) + rest;
    assert s[0] == 'i' && s[1..] == IntToString(i) + ";" + rest;
    ParseIntOf(i, rest);
  }

  lemma ParseSerializeDec(digits: int, scale: nat, rest: string)
    ensures Parse(Serialize(JDec(digits, scale)) + rest) == Some((JDec(digits, scale), rest))
  {
    var s := Serialize(JDec(digits, scale)) + rest;
    assert s[0] == 'd' && s[1..] == IntToString(digits) + ";" + NatToString(scale) + ";" + rest;
    ParseDecOf(digits, scale, rest);
  }

  lemma {:induction false} ParseSerializeArr(items: seq<Json>, rest: string)
    ensures Parse(Serialize(JArr(items)) + rest) == Some((JArr(items), rest))
    decreases JArr(items), 1
  {
    var x := SerializeItems(items) + rest;
    var s := Serialize(JArr(items)) + rest;
    assert s[0] == 'a' && s[1..] == NatToString(|items|) + [':'] + x;
    ParseNatOf(|items|, ':', x);
    ParseSerializeItems(items, rest);
  }

  lemma {:induction false} ParseSerializeObj(ms: seq<Member>, rest: string)
    ensures Parse(Serialize(JObj(ms)) + rest) == Some((JObj(ms), rest))
    decreases JObj(ms), 1
  {
    var x := SerializeMembers(ms) + rest;
    var s := Serialize(JObj(ms)) + rest;
    assert s[0] == 'o' && s[1..] == NatToString(|ms|) + [':'] + x;
    assert ParseObj(s[1..]) == Some((JObj(ms), rest)) by {
      ParseNatOf(|ms|, ':', x);
      var n: nat := |ms|;
      assert ParseNat(s[1..], ':') == Some((n, x));
      ParseSerializeMembers(ms, rest);
    }
  }

  lemma {:induction false} ParseSerializeItems(items: seq<Json>, rest: string)
    ensures ParseItems(|items|, SerializeItems(items) + rest) == Some((items, rest))
    decreases items, 0
  {
    if items != [] {
      var tail := SerializeItems(items[1..]) + rest;
      assert SerializeItems(items) + rest == Serialize(items[0]) + tail;
      ParseSerialize(items[0], tail);
      ParseSerializeItems(items[1..], rest);
      ItemsCons(items[0], items[1..], tail, rest);
      assert [items[0]] + items[1..] == items;
    } else {
      assert SerializeItems(items) + rest == rest;
    }
  }

  lemma {:induction false} ParseSerializeMembers(ms: seq<Member>, rest: string)
    ensures ParseMembers(|ms|, SerializeMembers(ms) + rest) == Some((ms, rest))
    decreases ms, 0
  {
    if ms != [] {
      assert ms[0].value < ms[0];
      var tail := SerializeMembers(ms[1..]) + rest;
      ParseSerialize(ms[0].value, tail);
      ParseSerializeMembers(ms[1..], rest);
      MembersCons(ms[0], ms[1..], tail, rest);
      SerializeMembersCons(ms, rest);
      assert [ms[0]] + ms[1..] == ms;
    } else {
      assert SerializeMembers(ms) + rest == rest;
    }
  }

  /** The items read back when the first item and the remaining items do. */
  lemma ItemsCons(v: Json, items: seq<Json>, tail: string, rest: string)
    requires Parse(Serialize(v) + tail) == Some((v, tail))
    requires ParseItems(|items|, tail) == Some((items, rest))
    ensures ParseItems(|items| + 1, Serialize(v) + tail) == Some(([v] + items, rest))
  {
  }

  /** The members read back when the first value and the remaining members do. */
  lemma MembersCons(m: Member, ms: seq<Member>, tail: string, rest: string)
    requires Parse(Serialize(m.value) + tail) == Some((m.value, tail))
    requires ParseMembers(|ms|, tail) == Some((ms, rest))
    ensures ParseMembers(|ms| + 1, StrText(m.key) + (Serialize(m.value) + tail)) == Some(([m] + ms, rest))
  {
    var afterKey := Serialize(m.value) + tail;
    ParseStrOf(m.key, afterKey);
    ParseMembersStep(|ms| + 1, StrText(m.key) + afterKey, m.key, afterKey, m.value, tail, ms, rest);
  }

  lemma SerializeMembersCons(ms: seq<Member>, rest: string)
    requires ms != []
    ensures SerializeMembers(ms) + rest
            == StrText(ms[0].key) + (Serialize(ms[0].value) + (SerializeMembers(ms[1..]) + rest))
  {
  }

  /** One member read: its key, its value, then the remaining members. */
  lemma ParseMembersStep(count: nat, s: string, key: string, afterKey: string, v: Json, tail: string,
                         ms: seq<Member>, rest: string)
    requires count > 0
    requires ParseStr(s) == Some((key, afterKey)) && Parse(afterKey) == Some((v, tail))
    requires ParseMembers(count - 1, tail) == Some((ms, rest))
    ensures ParseMembers(count, s) == Some(([Member(key, v)] + ms, rest))
  {
  }

  /** The round trip of a whole document. */
  lemma LoadsSerialize(v: Json)
    ensures Loads(Serialize(v)) == Some(v)
  {
    ParseSerialize(v, "");
    assert Serialize(v) + "" == Serialize(v);
  }

  /** Serialising is injective: distinct values never share a text. */
  lemma SerializeInjective(v: Json, w: Json)
    requires Serialize(v) == Serialize(w)
    ensures v == w
  {
    LoadsSerialize(v);
    LoadsSerialize(w);
  }
}
