/** How an engine compares two values, and the order ORDER BY puts them in. */
module Orders {
  import opened Wrappers
  import opened Graphs
  import opened Truths

  /** Texts by their characters, first to last. */
  predicate TextBefore(a: string, b: string) {
    if b == "" then false
    else if a == "" then true
    else a[0] < b[0] || (a[0] == b[0] && TextBefore(a[1..], b[1..]))
  }

  lemma {:induction false} TextsAreOrdered(a: string, b: string)
    ensures !(TextBefore(a, b) && TextBefore(b, a))
    ensures !TextBefore(a, a)
    ensures TextBefore(a, b) || TextBefore(b, a) || a == b
  {
    if a != "" {
      TextsAreOrdered(a[1..], if b == "" then "" else b[1..]);
      assert a == [a[0]] + a[1..] && (b != "" ==> b == [b[0]] + b[1..]);
    }
  }

  lemma {:induction false} TextsGoOn(a: string, b: string, c: string)
    requires TextBefore(a, b) && TextBefore(b, c)
    ensures TextBefore(a, c)
  {
    if a != "" && a[0] == b[0] && b[0] == c[0] {
      TextsGoOn(a[1..], b[1..], c[1..]);
    }
  }

  predicate SameKind(a: Value, b: Value) {
    (a.Number? && b.Number?) || (a.Text? && b.Text?)
  }

  /** Of two values of a kind. */
  predicate Before(a: Value, b: Value)
    requires SameKind(a, b)
  {
    if a.Number? then a.n < b.n else TextBefore(a.text, b.text)
  }

  lemma ValuesAreOrdered(a: Value, b: Value)
    requires SameKind(a, b)
    ensures !(Before(a, b) && Before(b, a)) && !Before(a, a)
    ensures Before(a, b) || Before(b, a) || a == b
  {
    if a.Text? {
      TextsAreOrdered(a.text, b.text);
    }
  }

  lemma ValuesGoOn(a: Value, b: Value, c: Value)
    requires SameKind(a, b) && SameKind(b, c) && Before(a, b) && Before(b, c)
    ensures Before(a, c)
  {
    if a.Text? {
      TextsGoOn(a.text, b.text, c.text);
    }
  }

  // ---- What a condition gives, where a value may be missing

  function Equals(a: Option<Value>, b: Option<Value>): Truth {
    if a.None? || b.None? then Unknown else Of(a.value == b.value)
  }

  function Less(a: Option<Value>, b: Option<Value>): Truth {
    if a.None? || b.None? || !SameKind(a.value, b.value) then Unknown else Of(Before(a.value, b.value))
  }

  function LessOrEqual(a: Option<Value>, b: Option<Value>): Truth {
    if a.None? || b.None? || !SameKind(a.value, b.value) then Unknown
    else Of(Before(a.value, b.value) || a.value == b.value)
  }
}
