/** Left-to-right scans over sequences, as Python `for` loops perform them. */
module Lists {

  /** The index of the first element of `xs` that is not in `present`,
      or `|xs|` when every element is present. */
  function FirstMissingIndex<T(==)>(xs: seq<T>, present: set<T>): (k: nat)
    ensures k <= |xs|
    ensures forall j :: 0 <= j < k ==> xs[j] in present
    ensures k < |xs| ==> xs[k] !in present
  {
    if xs == [] then 0
    else if xs[0] !in present then 0
    else 1 + FirstMissingIndex(xs[1..], present)
  }

  /** Every element of `xs` is in `present` exactly when the scan runs to the end. */
  lemma AllPresentIffScanCompletes<T>(xs: seq<T>, present: set<T>)
    ensures FirstMissingIndex(xs, present) == |xs| <==> forall j :: 0 <= j < |xs| ==> xs[j] in present
  {
  }

  /** Consing the head onto a prefix of the tail gives a longer prefix. */
  lemma ConsPrefix<T>(s: seq<T>, k: nat, extra: seq<T>)
    requires k < |s|
    ensures [s[0]] + (s[1..][..k] + extra) == s[..k + 1] + extra
  {
    assert s[..k + 1] == [s[0]] + s[1..][..k];
  }
}
