/**
 * The round message of the single-polynomial sum-check: the table split at
 * half its length and each half summed.
 */
module SumcheckUtility {
  import opened Field
  import opened Encoding
  import opened MleTheory

  /**
   * `split_polynomial_and_sum_each`: the sums of the first |values| / 2
   * entries and of the rest.  Together they are the sum of the whole table.
   */
  function SplitPolynomialAndSumEach(values: seq<Fe>): (univariate: seq<Fe>)
    ensures |univariate| == 2
    ensures Add(univariate[0], univariate[1]) == Sum(values)
  {
    var mid := |values| / 2;
    SumHalves(values, mid);
    [Sum(values[..mid]), Sum(values[mid..])]
  }

  /** A sum with one more entry in front. */
  lemma SumCons(x: Fe, s: seq<Fe>)
    ensures Sum([x] + s) == Add(x, Sum(s))
  {
    SumAppend([x], s);
    SumSingleton(x);
  }

  /**
   * Which entries each half holds: the left one the first |values| / 2.  On
   * an odd length the middle entry is the first of the right half, so a
   * single entry gives `[0, entry]`.
   */
  lemma SplitHalves(values: seq<Fe>)
    ensures SplitPolynomialAndSumEach(values)[0] == Sum(values[..|values| / 2])
    ensures SplitPolynomialAndSumEach(values)[1] == Sum(values[|values| / 2..])
    ensures |values| % 2 == 1 ==>
      SplitPolynomialAndSumEach(values)[1] == Add(values[|values| / 2], Sum(values[|values| / 2 + 1..]))
    ensures |values| == 1 ==> SplitPolynomialAndSumEach(values) == [0, values[0]]
  {
    var mid := |values| / 2;
    if |values| % 2 == 1 {
      assert values[mid..] == [values[mid]] + values[mid + 1..];
      SumCons(values[mid], values[mid + 1..]);
    }
    if |values| == 1 {
      assert values[..0] == [];
      assert values[0..] == [values[0]];
      SumSingleton(values[0]);
    }
  }

  /** `field_element_to_bytes`: the 32-byte big-endian encoding. */
  function FieldElementToBytes(fieldElement: Fe): (bytes: Bytes)
    ensures |bytes| == ElementWidth
  {
    ToBytesBe(fieldElement)
  }

  /** `field_element_to_bytes` followed by `from_be_bytes_mod_order` gives the element back. */
  lemma FieldElementBytesDecode(fieldElement: Fe)
    ensures FromBeBytesModOrder(FieldElementToBytes(fieldElement)) == fieldElement
  {
    ToBytesBeDecodes(fieldElement);
  }
}
