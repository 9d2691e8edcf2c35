/**
 * The structured values a trajectory stores (tool parameters, tool result,
 * step data) and their serialised form. A serialised value is a flat stream
 * of tokens, the lexical units of an RFC 8259 text; separators, whitespace and
 * escaping are not modelled. The property the repository relies on is that
 * decoding an encoded value gives the value back.
 */
module JsonValue {
  import opened Wrappers

  /** A JSON value; a number is an abstract decimal mantissa * 10^exponent. */
  datatype Json =
    | JNull
    | JBool(b: bool)
    | JNumber(mantissa: int, exponent: int)
    | JString(s: string)
    | JArray(items: seq<Json>)
    | JObject(members: seq<(string, Json)>)

  /** The lexical units of a serialised value. */
  datatype Token =
    | TNull
    | TBool(b: bool)
    | TNumber(mantissa: int, exponent: int)
    | TString(s: string)
    | TKey(key: string)
    | TBeginArray
    | TEndArray
    | TBeginObject
    | TEndObject

  /** `json.dumps`: the token stream of a value. */
  function Encode(j: Json): (ts: seq<Token>)
    decreases j
    ensures |ts| >= 1
    ensures ts[0] != TEndArray && ts[0] != TEndObject && !ts[0].TKey?
  {
    match j
    case JNull => [TNull]
    case JBool(b) => [TBool(b)]
    case JNumber(m, e) => [TNumber(m, e)]
    case JString(s) => [TString(s)]
    case JArray(items) => [TBeginArray] + EncodeItems(items) + [TEndArray]
    case JObject(members) => [TBeginObject] + EncodeMembers(members) + [TEndObject]
  }

  function EncodeItems(items: seq<Json>): seq<Token>
    decreases items, 0
  {
    if items == [] then [] else Encode(items[0]) + EncodeItems(items[1..])
  }

  function EncodeMembers(members: seq<(string, Json)>): seq<Token>
    decreases members, 0
  {
    if members == [] then []
    else
      var (key, value) := members[0];
      assert value < members[0];
      [TKey(key)] + Encode(value) + EncodeMembers(members[1..])
  }

  /**
   * `json.loads` on a prefix of a token stream: the value it starts with and
   * the tokens after it, or nothing when the stream does not start with a
   * well-formed value.
   */
  function ParseValue(ts: seq<Token>): (r: Option<(Json, seq<Token>)>)
    decreases |ts|, 0
    ensures r.Some? ==> |r.value.1| < |ts|
  {
    if ts == [] then None
    else match ts[0]
      case TNull => Some((JNull, ts[1..]))
      case TBool(b) => Some((JBool(b), ts[1..]))
      case TNumber(m, e) => Some((JNumber(m, e), ts[1..]))
      case TString(s) => Some((JString(s), ts[1..]))
      case TBeginArray =>
        (match ParseItems(ts[1..])
         case Some((items, rest)) => Some((JArray(items), rest))
         case None => None)
      case TBeginObject =>
        (match ParseMembers(ts[1..])
         case Some((members, rest)) => Some((JObject(members), rest))
         case None => None)
      case _ => None
  }

  /** Array items up to and including the closing token. */
  function ParseItems(ts: seq<Token>): (r: Option<(seq<Json>, seq<Token>)>)
    decreases |ts|, 1
    ensures r.Some? ==> |r.value.1| < |ts|
  {
    if ts == [] then None
    else if ts[0] == TEndArray then Some(([], ts[1..]))
    else match ParseValue(ts)
      case None => None
      case Some((item, rest)) =>
        match ParseItems(rest)
        case None => None
        case Some((items, rest')) => Some(([item] + items, rest'))
  }

  /** Object members up to and including the closing token. */
  function ParseMembers(ts: seq<Token>): (r: Option<(seq<(string, Json)>, seq<Token>)>)
    decreases |ts|, 0
    ensures r.Some? ==> |r.value.1| < |ts|
  {
    if ts == [] then None
    else if ts[0] == TEndObject then Some(([], ts[1..]))
    else if !ts[0].TKey? then None
    else match ParseValue(ts[1..])
      case None => None
      case Some((value, rest)) =>
        match ParseMembers(rest)
        case None => None
        case Some((members, rest')) => Some(([(ts[0].key, value)] + members, rest'))
  }

  /** Decoding a whole stream: a value with nothing after it. */
  function Decode(ts: seq<Token>): Option<Json>
  {
    match ParseValue(ts)
    case Some((j, rest)) => if rest == [] then Some(j) else None
    case None => None
  }

  /** Parsing an encoded value gives it back and leaves whatever followed untouched. */
  lemma {:induction false} ParseEncode(j: Json, rest: seq<Token>)
    decreases |Encode(j)|, 1
    ensures ParseValue(Encode(j) + rest) == Some((j, rest))
  {
    match j
    case JArray(items) =>
      var ts := Encode(j) + rest;
      assert ts[1..] == EncodeItems(items) + ([TEndArray] + rest);
      ParseEncodeItems(items, rest);
    case JObject(members) =>
      var ts := Encode(j) + rest;
      assert ts[1..] == EncodeMembers(members) + ([TEndObject] + rest);
      ParseEncodeMembers(members, rest);
    case _ =>
      assert (Encode(j) + rest)[1..] == rest;
  }

  lemma {:induction false} ParseEncodeItems(items: seq<Json>, rest: seq<Token>)
    decreases |EncodeItems(items)|, 2
    ensures ParseItems(EncodeItems(items) + ([TEndArray] + rest)) == Some((items, rest))
  {
    var ts := EncodeItems(items) + ([TEndArray] + rest);
    if items == [] {
      assert ts == [TEndArray] + rest;
      assert ts[1..] == rest;
    } else {
      var tail := EncodeItems(items[1..]) + ([TEndArray] + rest);
      assert ts == Encode(items[0]) + tail;
      ParseEncode(items[0], tail);
      ParseEncodeItems(items[1..], rest);
      assert [items[0]] + items[1..] == items;
    }
  }

  lemma {:induction false} ParseEncodeMembers(members: seq<(string, Json)>, rest: seq<Token>)
    decreases |EncodeMembers(members)|, 2
    ensures ParseMembers(EncodeMembers(members) + ([TEndObject] + rest)) == Some((members, rest))
  {
    var ts := EncodeMembers(members) + ([TEndObject] + rest);
    if members == [] {
      assert ts == [TEndObject] + rest;
      assert ts[1..] == rest;
    } else {
      var tail := EncodeMembers(members[1..]) + ([TEndObject] + rest);
      assert ts == [TKey(members[0].0)] + (Encode(members[0].1) + tail);
      assert ts[1..] == Encode(members[0].1) + tail;
      ParseEncode(members[0].1, tail);
      ParseEncodeMembers(members[1..], rest);
      assert [(members[0].0, members[0].1)] + members[1..] == members;
    }
  }

  /** The round trip the repository relies on: decoding an encoded value is the identity. */
  lemma DecodeEncode(j: Json)
    ensures Decode(Encode(j)) == Some(j)
  {
    ParseEncode(j, []);
    assert Encode(j) + [] == Encode(j);
  }

  /** Encoding is injective: different values never share a serialised form. */
  lemma EncodeInjective(a: Json, b: Json)
    requires Encode(a) == Encode(b)
    ensures a == b
  {
    DecodeEncode(a);
    DecodeEncode(b);
  }
}
