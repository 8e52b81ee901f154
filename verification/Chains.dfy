/** Cells that wait for the same thing, chained through their own contents. */
module Chains {

  type Addr = nat

  const NULL: Addr := 0

  datatype Status = SoapOk | SoapHref | SoapMultiId | SoapMissingId

  function After(c: seq<Addr>, j: nat): Addr {
    if j + 1 < |c| then c[j + 1] else NULL
  }

  /** The cells c are linked in order from head, the last one holding NULL. */
  ghost predicate Chained(mem: map<Addr, Addr>, head: Addr, c: seq<Addr>) {
    && head == (if c == [] then NULL else c[0])
    && (forall j :: 0 <= j < |c| ==> c[j] in mem)
    && (forall j {:trigger After(c, j)} :: 0 <= j < |c| ==> mem[c[j]] == After(c, j))
    && (forall i, j :: 0 <= i < j < |c| ==> c[i] != c[j])
  }

  lemma {:induction false} UpperBound(s: set<Addr>) returns (b: Addr)
    ensures forall a :: a in s ==> a < b
    ensures b !in s && b != NULL
  {
    b := 1;
    var rest := s;
    while rest != {}
      invariant b != NULL && rest <= s
      invariant forall a :: a in s && a !in rest ==> a < b
    {
      var a :| a in rest;
      b := if a < b then b else a + 1;
      rest := rest - {a};
    }
  }
}
