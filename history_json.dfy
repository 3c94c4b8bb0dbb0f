/**
 * The processing history as `JSON.stringify` writes it to storage and
 * `JSON.parse` reads it back (apps/frontend/components/ProcessingHistory.tsx):
 * an array of `{originalUrl, processedUrl, date, hasError?}` objects with
 * the keys in that order, no white space, and strings escaped as
 * `JSON.stringify` escapes them. The decoder reads back exactly that
 * form; decoding an encoding gives back the list.
 */
module HistoryJson {
  import opened Wrappers
  import Strings

  /** One entry of the history; `hasError` is absent from entries saved without it. */
  datatype HistoryItem = HistoryItem(originalUrl: string, processedUrl: string, date: string, hasError: Option<bool>)

  /** The lower-case hexadecimal digit of 0..15. */
  function HexDigit(n: nat): (c: char)
    requires n < 16
  {
    if n < 10 then ('0' as int + n) as char else ('a' as int + n - 10) as char
  }

  /** The value of a hexadecimal digit of either case. */
  function HexValue(c: char): (v: Option<nat>)
    ensures v.Some? ==> v.value < 16
  {
    if '0' <= c <= '9' then Some(c as int - '0' as int)
    else if 'a' <= c <= 'f' then Some(c as int - 'a' as int + 10)
    else if 'A' <= c <= 'F' then Some(c as int - 'A' as int + 10)
    else None
  }

  lemma HexDigitValue(n: nat)
    requires n < 16
    ensures HexValue(HexDigit(n)) == Some(n)
  {
  }

  /**
   * How `JSON.stringify` writes one character inside a string: quote and
   * backslash escaped, the five named controls as `\b \t \n \f \r`, the
   * other controls below U+0020 as `\u00xx`, everything else as itself.
   */
  function EscapeChar(c: char): (e: string)
    ensures |e| >= 1 && e[0] != '"'
  {
    if c == '"' then "\\\""
    else if c == '\\' then "\\\\"
    else if c == '\U{0008}' then "\\b"
    else if c == '\t' then "\\t"
    else if c == '\n' then "\\n"
    else if c == '\U{000C}' then "\\f"
    else if c == '\r' then "\\r"
    else if (c as int) < 0x20 then "\\u00" + [HexDigit(c as int / 16), HexDigit(c as int % 16)]
    else [c]
  }

  function EscapeBody(s: string): string {
    if s == [] then [] else EscapeChar(s[0]) + EscapeBody(s[1..])
  }

  /** A string as `JSON.stringify` writes it, quotes included. */
  function EncodeString(s: string): string {
    "\"" + EscapeBody(s) + "\""
  }

  /** The first character of a string body and how many characters it took; None on a bad escape or a raw control. */
  function UnescapeOne(t: string): (r: Option<(char, nat)>)
    requires |t| > 0
    ensures r.Some? ==> 1 <= r.value.1 <= |t|
  {
    if t[0] != '\\' then
      if (t[0] as int) < 0x20 then None else Some((t[0], 1))
    else if |t| < 2 then None
    else if t[1] == '"' then Some(('"', 2))
    else if t[1] == '\\' then Some(('\\', 2))
    else if t[1] == '/' then Some(('/', 2))
    else if t[1] == 'b' then Some(('\U{0008}', 2))
    else if t[1] == 't' then Some(('\t', 2))
    else if t[1] == 'n' then Some(('\n', 2))
    else if t[1] == 'f' then Some(('\U{000C}', 2))
    else if t[1] == 'r' then Some(('\r', 2))
    else if t[1] == 'u' && |t| >= 6 then
      match (HexValue(t[2]), HexValue(t[3]), HexValue(t[4]), HexValue(t[5]))
      case (Some(a), Some(b), Some(c), Some(d)) =>
        var v := CodeUnit(a, b, c, d);
        if 0xD800 <= v < 0xE000 then None else Some((v as char, 6))
      case _ => None
    else None
  }

  /** The value of four hexadecimal digits, most significant first. */
  function CodeUnit(a: nat, b: nat, c: nat, d: nat): (v: nat)
    requires a < 16 && b < 16 && c < 16 && d < 16
    ensures v < 0x10000
  {
    assert a * 16 + b < 0x100;
    assert (a * 16 + b) * 16 + c < 0x1000;
    ((a * 16 + b) * 16 + c) * 16 + d
  }

  /** A string body up to its closing quote: the characters read and what follows the quote. */
  function DecodeStringBody(t: string): (r: Option<(string, string)>)
    ensures r.Some? ==> |r.value.1| < |t|
    decreases |t|
  {
    if |t| == 0 then None
    else if t[0] == '"' then Some(([], t[1..]))
    else match UnescapeOne(t)
      case None => None
      case Some((c, n)) =>
        match DecodeStringBody(t[n..])
        case None => None
        case Some((s, rest)) => Some(([c] + s, rest))
  }

  /** A quoted string at the start of `t`, and what follows it. */
  function DecodeString(t: string): (r: Option<(string, string)>)
    ensures r.Some? ==> |r.value.1| < |t|
  {
    if |t| > 0 && t[0] == '"' then DecodeStringBody(t[1..]) else None
  }

  /** Reading an escaped character gives it back, whatever follows. */
  lemma UnescapeEscape(c: char, t: string)
    ensures UnescapeOne(EscapeChar(c) + t) == Some((c, |EscapeChar(c)|))
  {
    var u := EscapeChar(c) + t;
    if c != '"' && c != '\\' && c != '\U{0008}' && c != '\t' && c != '\n' && c != '\U{000C}' && c != '\r'
       && (c as int) < 0x20 {
      var hi, lo := c as int / 16, c as int % 16;
      assert u[1] == 'u' && u[2] == '0' && u[3] == '0' && u[4] == HexDigit(hi) && u[5] == HexDigit(lo);
      HexDigitValue(hi);
      HexDigitValue(lo);
    }
  }

  /** The body of an encoded string decodes to the string, leaving what follows its closing quote. */
  lemma {:induction false} DecodeEscaped(s: string, rest: string)
    ensures DecodeStringBody(EscapeBody(s) + "\"" + rest) == Some((s, rest))
    decreases |s|
  {
    var t := EscapeBody(s) + "\"" + rest;
    if s == [] {
      assert t == "\"" + rest;
    } else {
      var tail := EscapeBody(s[1..]) + "\"" + rest;
      assert t == EscapeChar(s[0]) + tail;
      UnescapeEscape(s[0], tail);
      assert t[|EscapeChar(s[0])|..] == tail;
      DecodeEscaped(s[1..], rest);
      assert [s[0]] + s[1..] == s;
    }
  }

  lemma DecodeEncodedString(s: string, rest: string)
    ensures DecodeString(EncodeString(s) + rest) == Some((s, rest))
  {
    var t := EncodeString(s) + rest;
    assert t[1..] == EscapeBody(s) + "\"" + rest;
    DecodeEscaped(s, rest);
  }

  const OriginalUrlKey: string := "{\"originalUrl\":"
  const ProcessedUrlKey: string := ",\"processedUrl\":"
  const DateKey: string := ",\"date\":"
  const HasErrorTrue: string := ",\"hasError\":true}"
  const HasErrorFalse: string := ",\"hasError\":false}"

  /** The closing part of an entry: the `hasError` member when present, then `}`. */
  function ItemEnd(hasError: Option<bool>): string {
    match hasError
    case None => "}"
    case Some(true) => HasErrorTrue
    case Some(false) => HasErrorFalse
  }

  /** One entry as `JSON.stringify` writes it. */
  function EncodeItem(item: HistoryItem): string {
    OriginalUrlKey + EncodeString(item.originalUrl)
    + ProcessedUrlKey + EncodeString(item.processedUrl)
    + DateKey + EncodeString(item.date)
    + ItemEnd(item.hasError)
  }

  /** The encodings of the entries, in order. */
  function ItemTexts(items: seq<HistoryItem>): (texts: seq<string>)
    ensures |texts| == |items|
    ensures forall i :: 0 <= i < |items| ==> texts[i] == EncodeItem(items[i])
  {
    seq(|items|, i requires 0 <= i < |items| => EncodeItem(items[i]))
  }

  /** `JSON.stringify(items)`. */
  function Encode(items: seq<HistoryItem>): (t: string)
    ensures |t| >= 2 && t[0] == '[' && t[|t| - 1] == ']'
  {
    if items == [] then "[]" else "[" + (Strings.Join(ItemTexts(items), ',') + "]")
  }

  /** `key` followed by a quoted string. */
  function DecodeField(key: string, t: string): (r: Option<(string, string)>)
    ensures r.Some? ==> |r.value.1| < |t|
  {
    if Strings.StartsWith(t, key) then DecodeString(t[|key|..]) else None
  }

  function DecodeItemEnd(t: string): (r: Option<(Option<bool>, string)>)
    ensures r.Some? ==> |r.value.1| < |t|
  {
    if Strings.StartsWith(t, "}") then Some((None, t[1..]))
    else if Strings.StartsWith(t, HasErrorTrue) then Some((Some(true), t[|HasErrorTrue|..]))
    else if Strings.StartsWith(t, HasErrorFalse) then Some((Some(false), t[|HasErrorFalse|..]))
    else None
  }

  /** One entry at the start of `t`, and what follows it. */
  function DecodeItem(t: string): (r: Option<(HistoryItem, string)>)
    ensures r.Some? ==> |r.value.1| < |t|
  {
    match DecodeField(OriginalUrlKey, t)
    case None => None
    case Some((o, t1)) =>
      match DecodeField(ProcessedUrlKey, t1)
      case None => None
      case Some((p, t2)) =>
        match DecodeField(DateKey, t2)
        case None => None
        case Some((d, t3)) =>
          match DecodeItemEnd(t3)
          case None => None
          case Some((e, t4)) => Some((HistoryItem(o, p, d, e), t4))
  }

  /** Entries separated by commas up to the closing `]`, which must end the text. */
  function DecodeItems(t: string): Option<seq<HistoryItem>>
    decreases |t|
  {
    match DecodeItem(t)
    case None => None
    case Some((item, rest)) =>
      if rest == "]" then Some([item])
      else if |rest| > 0 && rest[0] == ',' then
        match DecodeItems(rest[1..])
        case None => None
        case Some(more) => Some([item] + more)
      else None
  }

  /** `JSON.parse` of a stored history, for the form `Encode` writes; None for any other text. */
  function Decode(t: string): (r: Option<seq<HistoryItem>>)
    ensures t == "[]" ==> r == Some([])
    ensures t == [] || t[0] != '[' ==> r.None?
  {
    if t == "[]" then Some([])
    else if |t| > 0 && t[0] == '[' then DecodeItems(t[1..])
    else None
  }

  /** A known prefix is recognised and skipped. */
  lemma Prefix(key: string, rest: string)
    ensures Strings.StartsWith(key + rest, key) && (key + rest)[|key|..] == rest
  {
    assert (key + rest)[..|key|] == key;
  }

  lemma DecodeEncodedField(key: string, s: string, rest: string)
    ensures DecodeField(key, key + (EncodeString(s) + rest)) == Some((s, rest))
  {
    Prefix(key, EncodeString(s) + rest);
    DecodeEncodedString(s, rest);
  }

  lemma DecodeEncodedEnd(e: Option<bool>, rest: string)
    ensures DecodeItemEnd(ItemEnd(e) + rest) == Some((e, rest))
  {
    Prefix(ItemEnd(e), rest);
    if e.Some? {
      assert (ItemEnd(e) + rest)[0] == ',';
    }
    if e == Some(false) {
      assert (ItemEnd(e) + rest)[12] == 'f';
    }
  }

  /** An encoded entry decodes to itself, whatever follows it. */
  lemma DecodeEncodedItem(item: HistoryItem, rest: string)
    ensures DecodeItem(EncodeItem(item) + rest) == Some((item, rest))
  {
    var r3 := ItemEnd(item.hasError) + rest;
    var r2 := DateKey + (EncodeString(item.date) + r3);
    var r1 := ProcessedUrlKey + (EncodeString(item.processedUrl) + r2);
    var t := OriginalUrlKey + (EncodeString(item.originalUrl) + r1);
    ItemLayout(OriginalUrlKey, EncodeString(item.originalUrl), ProcessedUrlKey, EncodeString(item.processedUrl),
      DateKey, EncodeString(item.date), ItemEnd(item.hasError), rest);
    DecodeEncodedField(OriginalUrlKey, item.originalUrl, r1);
    DecodeEncodedField(ProcessedUrlKey, item.processedUrl, r2);
    DecodeEncodedField(DateKey, item.date, r3);
    DecodeEncodedEnd(item.hasError, rest);
    DecodeItemSteps(t, item.originalUrl, r1, item.processedUrl, r2, item.date, r3, item.hasError, rest);
  }

  /** The entry's pieces, regrouped from the right. */
  lemma ItemLayout(a: string, b: string, c: string, d: string, e: string, f: string, g: string, r: string)
    ensures a + b + c + d + e + f + g + r == a + (b + (c + (d + (e + (f + (g + r))))))
  {
  }

  /** The four decoding steps of an entry, chained. */
  lemma DecodeItemSteps(t: string, o: string, t1: string, p: string, t2: string, d: string, t3: string,
                        e: Option<bool>, t4: string)
    requires DecodeField(OriginalUrlKey, t) == Some((o, t1))
    requires DecodeField(ProcessedUrlKey, t1) == Some((p, t2))
    requires DecodeField(DateKey, t2) == Some((d, t3))
    requires DecodeItemEnd(t3) == Some((e, t4))
    ensures DecodeItem(t) == Some((HistoryItem(o, p, d, e), t4))
  {
  }

  /** `text` is the encoding of `item`: it decodes to it whatever follows. */
  ghost predicate Encodes(text: string, item: HistoryItem) {
    forall r :: DecodeItem(text + r) == Some((item, r))
  }

  lemma UseEncodes(text: string, item: HistoryItem, r: string)
    requires Encodes(text, item)
    ensures DecodeItem(text + r) == Some((item, r))
  {
  }

  /**
   * Texts that each decode to one entry, joined by commas and closed by
   * `]`, decode to the list of those entries.
   */
  lemma {:induction false} DecodeJoined(texts: seq<string>, items: seq<HistoryItem>)
    requires |texts| == |items| >= 1
    requires forall i :: 0 <= i < |texts| ==> Encodes(texts[i], items[i])
    ensures DecodeItems(Strings.Join(texts, ',') + "]") == Some(items)
    decreases |texts|
  {
    if |texts| == 1 {
      UseEncodes(texts[0], items[0], "]");
      LastItem(texts[0], items[0]);
      assert items == [items[0]];
    } else {
      var tail := Strings.Join(texts[1..], ',') + "]";
      DecodeJoined(texts[1..], items[1..]);
      JoinFirst(texts, tail);
      UseEncodes(texts[0], items[0], "," + tail);
      JoinedStep(texts[0], items, tail, Strings.Join(texts, ',') + "]");
    }
  }

  /** The first entry, a comma, and the decoded rest make up the whole list. */
  lemma JoinedStep(first: string, items: seq<HistoryItem>, tail: string, whole: string)
    requires |items| >= 2 && DecodeItem(first + ("," + tail)) == Some((items[0], "," + tail))
    requires DecodeItems(tail) == Some(items[1..]) && whole == first + ("," + tail)
    ensures DecodeItems(whole) == Some(items)
  {
    NextItems(first, "," + tail, items[0], tail, items[1..]);
    ConsSplit(items);
  }

  lemma ConsSplit(items: seq<HistoryItem>)
    requires |items| >= 1
    ensures [items[0]] + items[1..] == items
  {
  }

  lemma JoinFirst(texts: seq<string>, tail: string)
    requires |texts| >= 2 && tail == Strings.Join(texts[1..], ',') + "]"
    ensures Strings.Join(texts, ',') + "]" == texts[0] + ("," + tail)
  {
    var j := Strings.Join(texts[1..], ',');
    assert Strings.Join(texts, ',') == texts[0] + [','] + j;
    Regroup(texts[0], [','], j, "]");
  }

  lemma Regroup(a: string, b: string, c: string, d: string)
    ensures a + b + c + d == a + (b + (c + d))
  {
  }

  /** An entry followed by the closing bracket decodes to a list of that entry. */
  lemma LastItem(e: string, item: HistoryItem)
    requires DecodeItem(e + "]") == Some((item, "]"))
    ensures DecodeItems(e + "]") == Some([item])
  {
  }

  /** An entry followed by a comma and more entries decodes to the entry and those entries. */
  lemma NextItems(e: string, rest: string, item: HistoryItem, tail: string, more: seq<HistoryItem>)
    requires DecodeItem(e + rest) == Some((item, rest))
    requires rest == "," + tail && DecodeItems(tail) == Some(more)
    ensures DecodeItems(e + rest) == Some([item] + more)
  {
    assert rest[1..] == tail;
  }

  /** What is written is read back: decoding the stored text of a history gives that history. */
  lemma DecodeEncode(items: seq<HistoryItem>)
    ensures Decode(Encode(items)) == Some(items)
  {
    if items != [] {
      var texts := ItemTexts(items);
      EachEncodes(items);
      DecodeJoined(texts, items);
      JoinedOpens(texts, items[0]);
      DecodeBracketed(Strings.Join(texts, ',') + "]", items);
    }
  }

  /** Every entry's text encodes that entry. */
  lemma EachEncodes(items: seq<HistoryItem>)
    ensures forall i :: 0 <= i < |items| ==> Encodes(ItemTexts(items)[i], items[i])
  {
    forall i | 0 <= i < |items|
      ensures Encodes(ItemTexts(items)[i], items[i])
    {
      forall r ensures DecodeItem(ItemTexts(items)[i] + r) == Some((items[i], r)) {
        DecodeEncodedItem(items[i], r);
      }
    }
  }

  /** A list body that starts with an entry, after the opening bracket, is decoded as a list. */
  lemma DecodeBracketed(body: string, items: seq<HistoryItem>)
    requires |body| >= 1 && body[0] == '{' && DecodeItems(body) == Some(items)
    ensures Decode("[" + body) == Some(items)
  {
    var t := "[" + body;
    assert t[1] == '{' && t[1..] == body;
  }

  /** The joined encoding begins with the first entry's opening '{'. */
  lemma JoinedOpens(texts: seq<string>, first: HistoryItem)
    requires |texts| >= 1 && texts[0] == EncodeItem(first)
    ensures |Strings.Join(texts, ',') + "]"| >= 1 && (Strings.Join(texts, ',') + "]")[0] == '{'
  {
    assert EncodeItem(first)[0] == '{';
  }
}
