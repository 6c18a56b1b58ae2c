/**
 * A node's stamp, `<data>:<links>`, and what an object is handed back after a save: src/model/Stamps.ts.
 *
 * The stamp is modelled twice. As text, the functions follow the source character by character. As values (`Stamp`,
 * `Carried`, `Found`), they are what the rest of the project reasons with. `HandedBackAsText` and `CheckedAsText` say
 * the two agree.
 */
module Stamps {
  import opened Wrappers

  const TOKEN := 16

  /** What a node with no stamp is found to carry. */
  const NEVER_STAMPED := "-"

  type Token = t: string | |t| == TOKEN && ':' !in t witness "0000000000000000"

  /** What a node carries: two tokens, as every save leaves it. */
  datatype Stamp = Stamp(data: Token, links: Token)

  /** What an object carries: a links token only if its lists came from the store. */
  datatype Carried = Carried(data: Token, links: Option<Token>)

  /** What a save found the node to carry: nothing, as it made the node; no stamp; or a stamp. */
  datatype Found = Made | Never | At(stamp: Stamp)

  function Whole(stamp: Stamp): Carried {
    Carried(stamp.data, Some(stamp.links))
  }

  /**
   * The stamp an object is handed back. `now` is the node's stamp after the save, which writes every node it hands a
   * stamp of.
   */
  function HandBack(carried: Option<Carried>, found: Found, now: Stamp): Carried {
    match carried
    case None => Carried(now.data, if found.Made? then Some(now.links) else None)
    case Some(c) =>
      if found.At? && c == Whole(found.stamp) then Whole(now)
      else
        Carried(
          if found.At? && found.stamp.data == c.data then now.data else c.data,
          if (found.At? && c.links == Some(found.stamp.links)) || (!found.At? && c.links.None?) then Some(now.links)
          else c.links)
  }

  /** Whether a checked save of an object carrying `expected` goes on, when its root carries `stamp`. */
  predicate Current(stamp: Option<Stamp>, expected: Carried, replacing: bool) {
    && stamp.Some?
    && stamp.value.data == expected.data
    && (replacing ==> expected.links == Some(stamp.value.links))
  }

  // ---- The same as text

  function Colon(s: string): (i: int)
    ensures -1 <= i < |s|
    ensures i >= 0 ==> s[i] == ':' && ':' !in s[..i]
    ensures i < 0 <==> ':' !in s
  {
    if s == [] then -1
    else if s[0] == ':' then 0
    else
      var rest := Colon(s[1..]);
      assert rest >= 0 ==> s[..rest + 1] == [s[0]] + s[1..][..rest];
      if rest < 0 then -1 else rest + 1
  }

  function DataToken(stamp: string): string {
    if Colon(stamp) < 0 then stamp else stamp[..Colon(stamp)]
  }

  function LinksToken(stamp: string): Option<string> {
    var index := Colon(stamp);
    if index >= 0 && index < |stamp| - 1 then Some(stamp[index + 1..]) else None
  }

  function HandedBack(carried: Option<string>, found: string, now: string): string {
    if carried.None? then
      if found == "" then now else DataToken(now) + ":"
    else if carried.value == found then now
    else
      var data := if DataToken(carried.value) == DataToken(found) then DataToken(now) else DataToken(carried.value);
      var links :=
        if LinksToken(carried.value) == LinksToken(found) then LinksToken(now) else LinksToken(carried.value);
      data + ":" + (if links.Some? then links.value else "")
  }

  function StampText(stamp: Stamp): string {
    stamp.data + ":" + stamp.links
  }

  function CarriedText(carried: Carried): string {
    carried.data + ":" + (if carried.links.Some? then carried.links.value else "")
  }

  function FoundText(found: Found): string {
    match found
    case Made => ""
    case Never => NEVER_STAMPED
    case At(stamp) => StampText(stamp)
  }

  /** The Cypher of a checked save: `left(n.stamp, 16) = left($expected, 16)`, and when replacing the links halves. */
  predicate CurrentText(stamp: string, expected: string, replacing: bool) {
    && (if |stamp| <= TOKEN then stamp else stamp[..TOKEN])
       == (if |expected| <= TOKEN then expected else expected[..TOKEN])
    && (replacing ==>
          && |expected| == 2 * TOKEN + 1
          && (if |stamp| <= TOKEN then stamp else stamp[|stamp| - TOKEN..]) == expected[|expected| - TOKEN..])
  }

  /** A text's halves are what stands before its first colon and what stands after it, if anything does. */
  lemma HalvesOf(data: string, rest: string)
    requires ':' !in data
    ensures DataToken(data) == data && LinksToken(data) == None
    ensures DataToken(data + ":" + rest) == data
    ensures LinksToken(data + ":" + rest) == if rest == "" then None else Some(rest)
  {
    var s := data + ":" + rest;
    assert s[|data|] == ':' && s[..|data|] == data && s[|data| + 1..] == rest;
  }

  lemma Parsed(data: Token, rest: string)
    requires ':' !in rest
    ensures DataToken(data + ":" + rest) == data
    ensures LinksToken(data + ":" + rest) == if rest == "" then None else Some(rest)
  {
    HalvesOf(data, rest);
  }

  lemma CarriedParsed(c: Carried)
    ensures DataToken(CarriedText(c)) == c.data
    ensures LinksToken(CarriedText(c)) == c.links
  {
    Parsed(c.data, if c.links.Some? then c.links.value else "");
  }

  lemma FoundParsed(found: Found)
    ensures DataToken(FoundText(found)) == match found case Made => "" case Never => "-" case At(s) => s.data
    ensures LinksToken(FoundText(found)) == if found.At? then Some(found.stamp.links) else None
  {
    if found.At? {
      Parsed(found.stamp.data, found.stamp.links);
    }
  }

  lemma OtherAsText(c: Carried, found: Found, now: Stamp)
    requires CarriedText(c) != FoundText(found)
    ensures HandedBack(Some(CarriedText(c)), FoundText(found), StampText(now))
      == CarriedText(HandBack(Some(c), found, now))
  {
    Parsed(now.data, now.links);
    FoundParsed(found);
    CarriedParsed(c);
    var r := HandBack(Some(c), found, now);
    assert found.At? ==> c != Whole(found.stamp);
    assert r.data == if DataToken(CarriedText(c)) == DataToken(FoundText(found)) then now.data else c.data;
    assert r.links == if LinksToken(CarriedText(c)) == LinksToken(FoundText(found)) then Some(now.links) else c.links;
  }

  /** The text of the source's `handedBack` is the text of the value `HandBack` gives, for every case of it. */
  lemma HandedBackAsText(carried: Option<Carried>, found: Found, now: Stamp)
    ensures var text := if carried.Some? then Some(CarriedText(carried.value)) else None;
      HandedBack(text, FoundText(found), StampText(now))
         == CarriedText(HandBack(carried, found, now))
  {
    Parsed(now.data, now.links);
    FoundParsed(found);
    if carried.Some? {
      CarriedParsed(carried.value);
      if found.At? && CarriedText(carried.value) == FoundText(found) {
        assert carried.value == Whole(found.stamp);
      } else {
        OtherAsText(carried.value, found, now);
      }
    }
  }

  /** The engine's comparison of a stamp's halves by position is the comparison of its tokens. */
  lemma CheckedAsText(stamp: Stamp, expected: Carried, replacing: bool)
    ensures CurrentText(StampText(stamp), CarriedText(expected), replacing)
      <==> Current(Some(stamp), expected, replacing)
  {
    var s, e := StampText(stamp), CarriedText(expected);
    assert s[..TOKEN] == stamp.data && e[..TOKEN] == expected.data;
    assert s[|s| - TOKEN..] == stamp.links;
    if expected.links.Some? {
      assert e[|e| - TOKEN..] == expected.links.value;
    }
  }
}
