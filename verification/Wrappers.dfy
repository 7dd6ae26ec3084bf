/** Values that may be missing, and Go's (value, error) results without the error text. */
module Wrappers {
  datatype Option<+T> = None | Some(value: T)

  datatype Result<+T> = Ok(value: T) | Err

  /** What a write to a database may do; an error does not say which of the latter two it was. */
  datatype Outcome = Committed | Refused | Unacknowledged

  /** All results of `f` over a sequence, or an error if one of them is. */
  function TryMap<A, B>(f: A -> Result<B>, s: seq<A>): (r: Result<seq<B>>)
    ensures r.Ok? ==> |r.value| == |s|
  {
    if s == [] then Ok([])
    else
      var front, last := TryMap(f, s[..|s| - 1]), f(s[|s| - 1]);
      if front.Ok? && last.Ok? then Ok(front.value + [last.value]) else Err
  }

  lemma {:induction false} TryMapOk<A, B>(f: A -> Result<B>, s: seq<A>)
    ensures TryMap(f, s).Ok? <==> forall i :: 0 <= i < |s| ==> f(s[i]).Ok?
    ensures TryMap(f, s).Ok? ==> forall i :: 0 <= i < |s| ==> f(s[i]) == Ok(TryMap(f, s).value[i])
  {
    if s == [] {
    } else {
      TryMapOk(f, s[..|s| - 1]);
    }
  }

  lemma {:induction false} TryMapConcat<A, B>(f: A -> Result<B>, a: seq<A>, b: seq<A>)
    ensures var x, y := TryMap(f, a), TryMap(f, b);
      TryMap(f, a + b) == if x.Ok? && y.Ok? then Ok(x.value + y.value) else Err
  {
    if b == [] {
      assert a + b == a;
      assert TryMap(f, a).Ok? ==> TryMap(f, a).value + [] == TryMap(f, a).value;
    } else {
      var last := |b| - 1;
      TryMapConcat(f, a, b[..last]);
      assert (a + b)[..|a| + last] == a + b[..last];
      var x, y := TryMap(f, a), TryMap(f, b[..last]);
      if x.Ok? && y.Ok? && f(b[last]).Ok? {
        var z := [f(b[last]).value];
        assert (x.value + y.value) + z == x.value + (y.value + z);
      }
    }
  }

  /** Results that are known one by one. */
  lemma TryMapIs<A, B>(f: A -> Result<B>, s: seq<A>, t: seq<B>)
    requires |s| == |t| && forall i :: 0 <= i < |s| ==> f(s[i]) == Ok(t[i])
    ensures TryMap(f, s) == Ok(t)
  {
    TryMapOk(f, s);
    assert TryMap(f, s).value == t;
  }
}
