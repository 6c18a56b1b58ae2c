/** Cypher's three truth values: what a condition gives, null included. A WHERE keeps the rows it is Yes for. */
module Truths {

  datatype Truth = Yes | No | Unknown

  function Of(b: bool): Truth {
    if b then Yes else No
  }

  function Not(t: Truth): Truth {
    match t
    case Yes => No
    case No => Yes
    case Unknown => Unknown
  }

  function And(a: Truth, b: Truth): Truth {
    if a == No || b == No then No else if a == Yes && b == Yes then Yes else Unknown
  }

  function Or(a: Truth, b: Truth): Truth {
    Not(And(Not(a), Not(b)))
  }

  function AllOf(ts: seq<Truth>): Truth {
    if ts == [] then Yes else And(ts[0], AllOf(ts[1..]))
  }

  function AnyOf(ts: seq<Truth>): Truth {
    if ts == [] then No else Or(ts[0], AnyOf(ts[1..]))
  }

  lemma {:induction false} AllOfIsYes(ts: seq<Truth>)
    ensures AllOf(ts) == Yes <==> forall i | 0 <= i < |ts| :: ts[i] == Yes
  {
    if ts != [] {
      AllOfIsYes(ts[1..]);
      assert forall i | 1 <= i < |ts| :: ts[i] == ts[1..][i - 1];
    }
  }

  lemma {:induction false} AnyOfIsYes(ts: seq<Truth>)
    ensures AnyOf(ts) == Yes <==> exists i | 0 <= i < |ts| :: ts[i] == Yes
  {
    if ts != [] {
      AnyOfIsYes(ts[1..]);
      assert forall i | 1 <= i < |ts| :: ts[i] == ts[1..][i - 1];
      assert (exists i | 0 <= i < |ts[1..]| :: ts[1..][i] == Yes) ==> exists i | 1 <= i < |ts| :: ts[i] == Yes by {
        if i :| 0 <= i < |ts[1..]| && ts[1..][i] == Yes {
          assert ts[i + 1] == Yes;
        }
      }
    }
  }

  lemma {:induction false} AllOfIsNo(ts: seq<Truth>)
    ensures AllOf(ts) == No <==> exists i | 0 <= i < |ts| :: ts[i] == No
  {
    if ts != [] {
      AllOfIsNo(ts[1..]);
      assert forall i | 1 <= i < |ts| :: ts[i] == ts[1..][i - 1];
      if i :| 0 <= i < |ts[1..]| && ts[1..][i] == No {
        assert ts[i + 1] == No;
      }
    }
  }

  lemma {:induction false} AllOfBoth(a: seq<Truth>, b: seq<Truth>)
    ensures AllOf(a + b) == And(AllOf(a), AllOf(b))
  {
    if a == [] {
      assert a + b == b;
    } else {
      AllOfBoth(a[1..], b);
      assert (a + b)[1..] == a[1..] + b;
    }
  }
}
