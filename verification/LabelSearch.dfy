/**
 * Whether a node carries a label, told by the text of its JSON array of labels
 * (src/backend/oracle/OracleGraph.ts:249-295): a needle that holds the whole label is looked for in the array, its
 * brackets made commas.
 */
module LabelSearch {
  import opened Wrappers

  // ---- How JSON_SERIALIZE writes a label

  function HexDigit(d: nat): char
    requires d < 16
  {
    "0123456789ABCDEF"[d]
  }

  /** A code in upper-case hexadecimal, padded to four digits. */
  function Hex(code: nat): string
    requires code < 0x10000
  {
    [HexDigit(code / 0x1000), HexDigit(code / 0x100 % 0x10), HexDigit(code / 0x10 % 0x10), HexDigit(code % 0x10)]
  }

  function ShortEscape(c: char): string {
    if c == '"' then "\\\""
    else if c == '\\' then "\\\\"
    else if c == 8 as char then "\\b"
    else if c == '\t' then "\\t"
    else if c == '\n' then "\\n"
    else if c == 12 as char then "\\f"
    else if c == '\r' then "\\r"
    else ""
  }

  function Escaped(c: char): string {
    if ShortEscape(c) != "" then ShortEscape(c)
    else if c as int < 0x20 || c as int == 0x7f || c as int == 0x2028 || c as int == 0x2029 then "\\u" + Hex(c as int)
    else [c]
  }

  /** What each character of a text is written as. */
  function Units(text: string): (units: seq<string>)
    ensures |units| == |text| && forall i | 0 <= i < |text| :: units[i] == Escaped(text[i])
  {
    seq(|text|, i requires 0 <= i < |text| => Escaped(text[i]))
  }

  function Concat(units: seq<string>): string {
    if units == [] then "" else units[0] + Concat(units[1..])
  }

  function Inner(text: string): string {
    Concat(Units(text))
  }

  function Serialized(text: string): string {
    "\"" + (Inner(text) + "\"")
  }

  lemma {:induction false} ConcatSnoc(units: seq<string>, u: string)
    ensures Concat(units + [u]) == Concat(units) + u
  {
    if units == [] {
      assert [u][1..] == [];
    } else {
      ConcatSnoc(units[1..], u);
      assert (units + [u])[1..] == units[1..] + [u];
      assert units[0] + (Concat(units[1..]) + u) == (units[0] + Concat(units[1..])) + u;
    }
  }

  lemma InnerMore(text: string, c: char)
    ensures Inner(text + [c]) == Inner(text) + Escaped(c)
  {
    assert Units(text + [c]) == Units(text) + [Escaped(c)];
    ConcatSnoc(Units(text), Escaped(c));
  }

  method SerializedLabel(text: string) returns (r: string)
    ensures r == Serialized(text)
  {
    var escaped := "";
    for i := 0 to |text|
      invariant escaped == Inner(text[..i])
    {
      var c := text[i];
      var short := ShortEscape(c);
      var code := c as int;
      var written :=
        if short != "" then short
        else if code < 0x20 || code == 0x7f || code == 0x2028 || code == 0x2029 then "\\u" + Hex(code)
        else [c];
      InnerMore(text[..i], c);
      assert text[..i + 1] == text[..i] + [c];
      escaped := escaped + written;
    }
    assert text[..|text|] == text;
    return "\"" + (escaped + "\"");
  }

  // ---- The text searched, and what is looked for in it

  function Joined(labels: seq<string>): string {
    if labels == [] then ""
    else if |labels| == 1 then Serialized(labels[0])
    else Serialized(labels[0]) + ("," + Joined(labels[1..]))
  }

  function SerializedArray(labels: seq<string>): string {
    "[" + Joined(labels) + "]"
  }

  /** LTRIM and RTRIM take every such character there is at the end. */
  function TrimLeft(text: string, c: char): string {
    if text != "" && text[0] == c then TrimLeft(text[1..], c) else text
  }

  function TrimRight(text: string, c: char): string {
    if text != "" && text[|text| - 1] == c then TrimRight(text[..|text| - 1], c) else text
  }

  function Searched(labels: seq<string>): string {
    "," + (TrimLeft(TrimRight(SerializedArray(labels), ']'), '[') + ",\"")
  }

  function Needle(sought: string): string {
    "," + (Serialized(sought) + ",\"")
  }

  predicate At(text: string, part: string, p: nat) {
    p <= |text| && part <= text[p..]
  }

  predicate Occurs(text: string, part: string) {
    exists p | 0 <= p <= |text| :: At(text, part, p)
  }

  // ---- What a character is written as

  lemma DigitsDiffer(d: nat, e: nat)
    requires d < 16 && e < 16
    ensures HexDigit(d) == HexDigit(e) ==> d == e
  {
  }

  lemma Digits(n: nat)
    requires n < 0x10000
    ensures n == n / 0x1000 * 0x1000 + n / 0x100 % 0x10 * 0x100 + n / 0x10 % 0x10 * 0x10 + n % 0x10
  {
    assert n / 0x100 == n / 0x1000 * 0x10 + n / 0x100 % 0x10;
    assert n / 0x10 == n / 0x100 * 0x10 + n / 0x10 % 0x10;
  }

  lemma HexIsInjective(a: nat, b: nat)
    requires a < 0x10000 && b < 0x10000 && Hex(a) == Hex(b)
    ensures a == b
  {
    DigitsDiffer(a / 0x1000, b / 0x1000);
    DigitsDiffer(a / 0x100 % 0x10, b / 0x100 % 0x10);
    DigitsDiffer(a / 0x10 % 0x10, b / 0x10 % 0x10);
    DigitsDiffer(a % 0x10, b % 0x10);
    assert Hex(a)[0] == Hex(b)[0] && Hex(a)[1] == Hex(b)[1] && Hex(a)[2] == Hex(b)[2] && Hex(a)[3] == Hex(b)[3];
    Digits(a);
    Digits(b);
  }

  /** No character is written as the start of what another is: the writing can be read back. */
  lemma EscapesAreACode(c: char, d: char)
    requires Escaped(c) <= Escaped(d)
    ensures c == d
  {
    var a, b := Escaped(c), Escaped(d);
    assert a[0] == b[0] && (|a| > 1 ==> a[1] == b[1]);
    if |a| == 6 {
      assert Hex(c as int) == a[2..] && Hex(d as int) == b[2..];
      HexIsInjective(c as int, d as int);
    }
  }

  // ---- How JSON reads a string (RFC 8259, section 7)

  /** The character a letter after a backslash stands for. */
  function LetterRead(letter: char): Option<char> {
    match letter
    case 'b' => Some(8 as char)
    case 't' => Some(9 as char)
    case 'n' => Some(10 as char)
    case 'f' => Some(12 as char)
    case 'r' => Some(13 as char)
    case _ => if letter in "\"\\/" then Some(letter) else None
  }

  function DigitRead(digit: char): int {
    if '0' <= digit <= '9' then digit as int - '0' as int
    else if 'A' <= digit <= 'F' then digit as int - 'A' as int + 10
    else if 'a' <= digit <= 'f' then digit as int - 'a' as int + 10
    else -1
  }

  function CodeRead(digits: string): int
    requires |digits| == 4
  {
    ((DigitRead(digits[0]) * 16 + DigitRead(digits[1])) * 16 + DigitRead(digits[2])) * 16 + DigitRead(digits[3])
  }

  /** A character as JSON may write it, and what it then reads. */
  predicate Reads(unit: string, c: char) {
    || (unit == [c] && c as int >= 0x20 && c != '"' && c != '\\')
    || (|unit| == 2 && unit[0] == '\\' && LetterRead(unit[1]) == Some(c))
    || (|unit| == 6 && unit[..2] == "\\u" && CodeRead(unit[2..]) == c as int)
  }

  lemma DigitIsRead(d: nat)
    requires d < 16
    ensures DigitRead(HexDigit(d)) == d
  {
    assert HexDigit(d) == if d < 10 then ('0' as int + d) as char else ('A' as int + d - 10) as char;
  }

  lemma HexIsRead(code: nat)
    requires code < 0x10000
    ensures CodeRead(Hex(code)) == code
  {
    DigitIsRead(code / 0x1000);
    DigitIsRead(code / 0x100 % 0x10);
    DigitIsRead(code / 0x10 % 0x10);
    DigitIsRead(code % 0x10);
    HexIsTheSum(code);
  }

  lemma HexIsTheSum(code: nat)
    ensures code == ((code / 0x1000 * 16 + code / 0x100 % 0x10) * 16 + code / 0x10 % 0x10) * 16 + code % 0x10
  {
    var tens := code / 0x10;
    var hundreds := tens / 0x10;
    assert hundreds == code / 0x100 && hundreds / 0x10 == code / 0x1000;
  }

  /** The characters JSON has a letter for, and the two it escapes as they are. */
  predicate HasLetter(c: char) {
    c == '"' || c == '\\' || c as int in {8, 9, 10, 12, 13}
  }

  /** The others this writes by their code. */
  predicate ByCode(c: char) {
    (c as int < 0x20 && !HasLetter(c)) || c as int in {0x7f, 0x2028, 0x2029}
  }

  lemma LettersAre(c: char)
    ensures HasLetter(c) <==> ShortEscape(c) != ""
    ensures HasLetter(c) ==> |ShortEscape(c)| == 2 && Reads(ShortEscape(c), c)
  {
  }

  lemma CodesAre(c: char)
    requires ByCode(c)
    ensures |Escaped(c)| == 6 && Reads(Escaped(c), c)
  {
    LettersAre(c);
    HexIsRead(c as int);
    assert Escaped(c) == "\\u" + Hex(c as int);
    assert Escaped(c)[..2] == "\\u" && Escaped(c)[2..] == Hex(c as int);
  }

  /** What each character is written as reads as that character, and which are written in which way. */
  lemma EscapesAreRead(c: char)
    ensures Reads(Escaped(c), c)
    ensures |Escaped(c)| == if HasLetter(c) then 2 else if ByCode(c) then 6 else 1
  {
    LettersAre(c);
    if ByCode(c) {
      CodesAre(c);
    }
  }

  /** What a text's characters are written as: none starts with a quote, and a comma is only ever a comma. */
  predicate Plain(unit: string) {
    unit != "" && unit[0] != '"' && forall i | 0 <= i < |unit| && unit[i] == ',' :: unit == ","
  }

  predicate Code(us: seq<string>, vs: seq<string>) {
    && (forall i | 0 <= i < |us| :: Plain(us[i]))
    && (forall i | 0 <= i < |vs| :: Plain(vs[i]))
    && forall i, j | 0 <= i < |us| && 0 <= j < |vs| && (us[i] <= vs[j] || vs[j] <= us[i]) :: us[i] == vs[j]
  }

  lemma DigitIsPlain(d: nat)
    requires d < 16
    ensures HexDigit(d) != ','
  {
  }

  lemma EscapeIsPlain(c: char)
    ensures Plain(Escaped(c))
  {
    if |Escaped(c)| == 6 {
      var code := c as int;
      DigitIsPlain(code / 0x1000);
      DigitIsPlain(code / 0x100 % 0x10);
      DigitIsPlain(code / 0x10 % 0x10);
      DigitIsPlain(code % 0x10);
      assert Escaped(c)[2..] == Hex(code);
      assert forall i | 2 <= i < 6 :: Escaped(c)[i] == Hex(code)[i - 2];
    }
  }

  lemma TextsAreCode(s: string, t: string)
    ensures Code(Units(s), Units(t))
  {
    forall i | 0 <= i < |s| ensures Plain(Units(s)[i]) {
      EscapeIsPlain(s[i]);
    }
    forall i | 0 <= i < |t| ensures Plain(Units(t)[i]) {
      EscapeIsPlain(t[i]);
    }
    forall i, j | 0 <= i < |s| && 0 <= j < |t| && (Units(s)[i] <= Units(t)[j] || Units(t)[j] <= Units(s)[i])
      ensures Units(s)[i] == Units(t)[j]
    {
      if Units(s)[i] <= Units(t)[j] {
        EscapesAreACode(s[i], t[j]);
      } else {
        EscapesAreACode(t[j], s[i]);
      }
    }
  }

  lemma UnitsTellTheText(s: string, t: string)
    requires Units(s) == Units(t)
    ensures s == t
  {
    forall i | 0 <= i < |s| ensures s[i] == t[i] {
      assert Units(s)[i] == Units(t)[i];
      EscapesAreACode(s[i], t[i]);
    }
  }

  // ---- Where a label's text ends

  lemma Heads(u: string, s: string, v: string, t: string)
    requires u + s <= v + t
    ensures u <= v || v <= u
    ensures u == v ==> s <= t
  {
    var a, b := u + s, v + t;
    if |u| <= |v| {
      assert u == a[..|u|] == b[..|u|] == v[..|u|];
    } else {
      assert v == b[..|v|] == a[..|v|] == u[..|v|];
    }
    if u == v {
      assert s == a[|u|..] && t == b[|v|..];
      assert a == b[..|a|];
    }
  }

  /** A label's text and its closing quote start no other label's. */
  lemma {:induction false} UnitsAreWhole(us: seq<string>, vs: seq<string>, rest: string)
    requires Code(us, vs) && Concat(us) + "\"" <= Concat(vs) + ("\"" + rest)
    ensures us == vs
  {
    assert (Concat(us) + "\"")[0] == (Concat(vs) + ("\"" + rest))[0];
    if us != [] && vs != [] {
      var s, t := Concat(us[1..]) + "\"", Concat(vs[1..]) + ("\"" + rest);
      assert Concat(us) + "\"" == us[0] + s;
      assert Concat(vs) + ("\"" + rest) == vs[0] + t;
      Heads(us[0], s, vs[0], t);
      assert us[0] == vs[0] && Code(us[1..], vs[1..]);
      UnitsAreWhole(us[1..], vs[1..], rest);
      assert us == [us[0]] + us[1..] && vs == [vs[0]] + vs[1..];
    }
  }

  lemma LabelIsWhole(sought: string, text: string, rest: string)
    requires Inner(sought) + "\"" <= Inner(text) + ("\"" + rest)
    ensures sought == text
  {
    TextsAreCode(sought, text);
    UnitsAreWhole(Units(sought), Units(text), rest);
    UnitsTellTheText(sought, text);
  }

  /** A quote after a comma of a label's text is the one that closes it. */
  lemma {:induction false} CommaBeforeClose(us: seq<string>, rest: string, p: nat)
    requires Code(us, us) && p < |Concat(us)|
    requires var s := Concat(us) + ("\"" + rest); s[p] == ',' && s[p + 1] == '"'
    ensures p + 1 == |Concat(us)|
  {
    var s, after := Concat(us) + ("\"" + rest), Concat(us[1..]) + ("\"" + rest);
    assert s == us[0] + after;
    assert |us| > 1 ==> Plain(us[1]) && after[0] == us[1][0];
    if p < |us[0]| {
      assert us[0][p] == ',' && us[0] == "," && after[0] == s[1];
    } else {
      assert after[p - |us[0]|] == s[p] && after[p + 1 - |us[0]|] == s[p + 1];
      CommaBeforeClose(us[1..], rest, p - |us[0]|);
    }
  }

  // ---- The search

  /** The text searched, a label at a time. */
  function Labels(labels: seq<string>): string {
    if labels == [] then ",\"" else "," + (Serialized(labels[0]) + Labels(labels[1..]))
  }

  lemma Regrouped(a: string, b: string, c: string, d: string)
    ensures (a + (b + c)) + d == a + (b + (c + d))
  {
  }

  lemma {:induction false} JoinedIsLabels(labels: seq<string>)
    requires labels != []
    ensures "," + (Joined(labels) + ",\"") == Labels(labels)
  {
    if |labels| > 1 {
      JoinedIsLabels(labels[1..]);
      Regrouped(Serialized(labels[0]), ",", Joined(labels[1..]), ",\"");
    } else {
      assert Labels(labels[1..]) == ",\"";
    }
  }

  lemma {:induction false} JoinedIsQuoted(labels: seq<string>)
    requires labels != []
    ensures Joined(labels) != "" && Joined(labels)[0] == '"' && Joined(labels)[|Joined(labels)| - 1] == '"'
  {
    if |labels| > 1 {
      JoinedIsQuoted(labels[1..]);
    }
  }

  lemma TrimOne(text: string)
    requires text == "" || (text[0] != '[' && text[|text| - 1] != ']')
    ensures TrimLeft(TrimRight("[" + text + "]", ']'), '[') == text
  {
    assert ("[" + text + "]")[..|text| + 1] == "[" + text;
    assert TrimRight("[" + text, ']') == "[" + text;
    assert ("[" + text)[1..] == text;
  }

  /** The trims take one bracket at each end; of the empty array they leave nothing. */
  lemma SearchedIs(labels: seq<string>)
    ensures Searched(labels) == if labels == [] then ",,\"" else Labels(labels)
  {
    if labels != [] {
      JoinedIsQuoted(labels);
      JoinedIsLabels(labels);
    } else {
      assert "" + ",\"" == ",\"";
    }
    TrimOne(Joined(labels));
  }

  /** A label's text, what follows it, and where what is looked for may stand in the two. */
  lemma Places(inner: string, rest: string, ending: string, p: nat)
    requires var text := "," + (("\"" + (inner + "\"")) + rest); p <= |text| && ",\"" + ending <= text[p..]
    ensures p == 0 ==> ending <= inner + ("\"" + rest)
    ensures 0 < p <= 2 + |inner| ==> p != 1 && p < 2 + |inner|
    ensures 1 < p < 2 + |inner| ==> var s := inner + ("\"" + rest); s[p - 2] == ',' && s[p - 1] == '"'
    ensures p == 1 + |inner| && p > 1 ==> ending <= rest
    ensures p > 2 + |inner| ==> At(rest, ",\"" + ending, p - 3 - |inner|)
  {
    var text, inside := "," + (("\"" + (inner + "\"")) + rest), inner + ("\"" + rest);
    assert text == ",\"" + inside;
    assert text[p] == text[p..][0] == ',' && text[p + 1] == text[p..][1] == '"';
    assert text[p + 2..] == text[p..][2..] && ending == (",\"" + ending)[2..];
    assert ending <= text[p + 2..];
    assert text[2..] == inside && text[3 + |inner|..] == rest;
    if p > 2 + |inner| {
      assert text[p..] == rest[p - 3 - |inner|..];
    }
  }

  lemma {:induction false} CarriedIsFound(labels: seq<string>, sought: string)
    requires sought in labels
    ensures Occurs(Labels(labels), Needle(sought))
  {
    var text, rest := Labels(labels), Labels(labels[1..]);
    var before := "," + Serialized(labels[0]);
    assert text == before + rest;
    if sought == labels[0] {
      assert rest[..2] == ",\"";
      assert Needle(sought) == before + ",\"";
      assert text[0..] == text;
      assert At(text, Needle(sought), 0);
    } else {
      CarriedIsFound(labels[1..], sought);
      var p :| 0 <= p <= |rest| && At(rest, Needle(sought), p);
      assert text[|before| + p..] == rest[p..];
      assert At(text, Needle(sought), |before| + p);
    }
  }

  /** The needle across the close of one label and what follows: only the label `,`, beside another. */
  lemma AcrossIsComma(sought: string, rest: seq<string>)
    requires Inner(sought) + ("\"" + ",\"") <= Labels(rest)
    ensures rest != [] && sought == "," && rest[0] == ","
  {
    var a, b := Inner(sought) + ("\"" + ",\""), Labels(rest);
    assert b[0] == ',' && b[1] == '"';
    assert a[0] == b[0] && a[1] == b[1];
    StartsWithComma(sought);
    assert |b| >= |a| == 4 && rest != [];
    Places(Inner(rest[0]), Labels(rest[1..]), ",\"", 0);
    assert ",\"" + ",\"" == a && b[0..] == b;
    LabelIsWhole(",", rest[0], Labels(rest[1..]));
  }

  lemma StartsWithComma(sought: string)
    requires var a := Inner(sought) + ("\"" + ",\""); a[0] == ',' && a[1] == '"'
    ensures sought == "," && Inner(sought) == ","
  {
    TextsAreCode(sought, sought);
    CommaBeforeClose(Units(sought), ",\"", 0);
    OneLong(sought);
  }

  lemma OneLong(text: string)
    requires |Inner(text)| == 1 && Inner(text)[0] == ','
    ensures text == ","
  {
    var units := Units(text);
    TextsAreCode(text, text);
    assert Plain(units[0]) && units[0] == ",";
    assert |text| > 1 ==> Plain(units[1]) && Concat(units[1..]) != "";
    EscapesAreACode(text[0], ',');
  }

  lemma {:induction false} FoundIsCarried(labels: seq<string>, sought: string, p: nat)
    requires At(Labels(labels), Needle(sought), p)
    ensures sought in labels
  {
    var ending := Inner(sought) + ("\"" + ",\"");
    NeedleIs(sought);
    assert labels != [];
    var inner, rest := Inner(labels[0]), Labels(labels[1..]);
    Places(inner, rest, ending, p);
    if p == 0 {
      assert Inner(sought) + "\"" <= ending;
      LabelIsWhole(sought, labels[0], rest);
    } else if p < 2 + |inner| {
      TextsAreCode(labels[0], labels[0]);
      CommaBeforeClose(Units(labels[0]), rest, p - 2);
      AcrossIsComma(sought, labels[1..]);
    } else {
      FoundIsCarried(labels[1..], sought, p - 3 - |inner|);
    }
  }

  lemma NeedleIs(sought: string)
    ensures Needle(sought) == ",\"" + (Inner(sought) + ("\"" + ",\""))
  {
    var inner := Inner(sought);
    assert "," + (("\"" + (inner + "\"")) + ",\"") == ",\"" + (inner + ("\"" + ",\""));
  }

  /** The search is exact, whatever characters the labels hold, for no labels and for the label `,` too. */
  lemma SearchIsExact(labels: seq<string>, sought: string)
    ensures Occurs(Searched(labels), Needle(sought)) <==> sought in labels
  {
    SearchedIs(labels);
    if sought in labels {
      CarriedIsFound(labels, sought);
    }
    if labels != [] && Occurs(Searched(labels), Needle(sought)) {
      var p :| 0 <= p <= |Labels(labels)| && At(Labels(labels), Needle(sought), p);
      FoundIsCarried(labels, sought, p);
    }
  }
}
