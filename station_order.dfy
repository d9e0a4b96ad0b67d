/**
 * The order in which the dashboard lists stations: `sorted` over the
 * station ids, that is Python's string order (code point by code point,
 * a proper prefix first).
 */
module StationOrder {

  /** `a < b` on Python strings. */
  predicate Below(a: string, b: string)
    decreases |a|
  {
    if a == [] then b != []
    else b != [] && (a[0] < b[0] || (a[0] == b[0] && Below(a[1..], b[1..])))
  }

  lemma {:induction false} BelowIrreflexive(a: string)
    ensures !Below(a, a)
    decreases |a|
  {
    if a != [] {
      BelowIrreflexive(a[1..]);
    }
  }

  lemma {:induction false} BelowTransitive(a: string, b: string, c: string)
    requires Below(a, b) && Below(b, c)
    ensures Below(a, c)
    decreases |a|
  {
    if a != [] && a[0] == b[0] && b[0] == c[0] {
      BelowTransitive(a[1..], b[1..], c[1..]);
    }
  }

  lemma {:induction false} BelowTotal(a: string, b: string)
    requires a != b
    ensures Below(a, b) || Below(b, a)
    decreases |a|
  {
    if a != [] && b != [] && a[0] == b[0] {
      BelowTotal(a[1..], b[1..]);
    }
  }

  /** The smallest id of a non-empty set. */
  method Least(ids: set<string>) returns (m: string)
    requires ids != {}
    ensures m in ids
    ensures forall k :: k in ids && k != m ==> Below(m, k)
  {
    m :| m in ids;
    var rest := ids - {m};
    while rest != {}
      invariant m in ids && rest <= ids
      invariant forall k :: k in ids - rest && k != m ==> Below(m, k)
      decreases rest
    {
      var k :| k in rest;
      if Below(k, m) {
        forall j | j in ids - rest && j != k
          ensures Below(k, j)
        {
          if j != m {
            BelowTransitive(k, m, j);
          }
        }
        m := k;
      } else if k != m {
        BelowTotal(k, m);
      }
      rest := rest - {k};
    }
  }

  /** `sorted(ids)`: every id once, in strictly increasing order. */
  method SortedIds(ids: set<string>) returns (order: seq<string>)
    ensures |order| == |ids|
    ensures forall k :: k in ids <==> k in order
    ensures forall i, j :: 0 <= i < j < |order| ==> Below(order[i], order[j])
  {
    order := [];
    var rest := ids;
    while rest != {}
      invariant rest <= ids
      invariant |order| + |rest| == |ids|
      invariant forall k :: k in ids <==> k in order || k in rest
      invariant forall k :: k in order ==> k !in rest
      invariant forall i, j :: 0 <= i < j < |order| ==> Below(order[i], order[j])
      invariant forall i, k :: 0 <= i < |order| && k in rest ==> Below(order[i], k)
      decreases rest
    {
      var m := Least(rest);
      order := order + [m];
      rest := rest - {m};
    }
  }
}
