/** Facts about sequences that several modules use. */
module Sequences {

  lemma {:induction false} Assoc<T>(a: seq<T>, b: seq<T>, c: seq<T>)
    ensures a + b + c == a + (b + c)
  {
  }

  /** es without its k-th element. */
  lemma {:induction false} Spliced<T>(es: seq<T>, k: nat)
    requires k < |es|
    ensures var rest := es[..k] + es[k + 1..];
            && (forall i :: 0 <= i < |rest| ==> rest[i] == es[if i < k then i else i + 1])
            && (forall x :: x in es <==> x in rest || x == es[k])
  {
    var rest := es[..k] + es[k + 1..];
    forall i | 0 <= i < |es| && i != k ensures es[i] in rest {
      assert rest[if i < k then i else i - 1] == es[i];
    }
  }

  ghost predicate AllDifferent<T>(es: seq<T>) {
    forall i, j :: 0 <= i < j < |es| ==> es[i] != es[j]
  }

  lemma {:induction false} SplicedDifferent<T>(es: seq<T>, k: nat)
    requires k < |es| && AllDifferent(es)
    ensures AllDifferent(es[..k] + es[k + 1..]) && es[k] !in es[..k] + es[k + 1..]
  {
    Spliced(es, k);
    var rest := es[..k] + es[k + 1..];
    forall i, j | 0 <= i < j < |rest| ensures rest[i] != rest[j] {
      assert rest[i] == es[if i < k then i else i + 1] && rest[j] == es[if j < k then j else j + 1];
    }
  }
}
