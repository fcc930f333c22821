/** numpy masked arrays as the drilling code uses them: a three-dimensional
    (band, row, column) array of values, each with a mask flag, and the
    reductions the standard statistics take over them (count, countnull,
    mean, standard deviation).
 */
module MaskedArrays {
  import opened Results

  /** One array element; `masked` means the element is null. */
  datatype Pixel = Pixel(value: real, masked: bool)

  /** One band: rows of columns. */
  type Grid = seq<seq<Pixel>>

  /** Bands of grids. The empty array `masked_array([], mask=True)` is the
      array with no bands, `[]`. */
  type MaskedArray = seq<Grid>

  /** Every band has `h` rows of `w` columns. */
  predicate Shaped(a: MaskedArray, h: nat, w: nat) {
    (forall b :: 0 <= b < |a| ==> |a[b]| == h) &&
    (forall b, r :: 0 <= b < |a| && 0 <= r < |a[b]| ==> |a[b][r]| == w)
  }

  function Flatten<T>(s: seq<seq<T>>): seq<T> {
    if s == [] then [] else s[0] + Flatten(s[1..])
  }

  /** The elements of the array in C order. */
  function Cells(a: MaskedArray): seq<Pixel> {
    if a == [] then [] else Flatten(a[0]) + Cells(a[1..])
  }

  /** numpy's `size`: the number of elements. */
  function Size(a: MaskedArray): nat { |Cells(a)| }

  lemma {:induction false} FlattenLength<T>(s: seq<seq<T>>, w: nat)
    requires forall r :: 0 <= r < |s| ==> |s[r]| == w
    ensures |Flatten(s)| == |s| * w
  {
    if s != [] {
      FlattenLength(s[1..], w);
    }
  }

  /** The size of a shaped array is bands * rows * columns. */
  lemma {:induction false} SizeOfShaped(a: MaskedArray, h: nat, w: nat)
    requires Shaped(a, h, w)
    ensures Size(a) == |a| * (h * w)
  {
    if a != [] {
      FlattenLength(a[0], w);
      assert |a[0]| == h;
      assert Shaped(a[1..], h, w) by {
        forall b | 0 <= b < |a[1..]| ensures |a[1..][b]| == h { assert a[1..][b] == a[b + 1]; }
      }
      SizeOfShaped(a[1..], h, w);
    }
  }

  function CountUnmasked(s: seq<Pixel>): nat {
    if s == [] then 0 else (if s[0].masked then 0 else 1) + CountUnmasked(s[1..])
  }

  function CountMasked(s: seq<Pixel>): nat {
    if s == [] then 0 else (if s[0].masked then 1 else 0) + CountMasked(s[1..])
  }

  function SumUnmasked(s: seq<Pixel>): real {
    if s == [] then 0.0 else (if s[0].masked then 0.0 else s[0].value) + SumUnmasked(s[1..])
  }

  /** MaskedArray.count(): the number of unmasked elements (std_stat_count). */
  function Count(a: MaskedArray): (n: nat)
    ensures n <= Size(a)
  {
    CountSplit(Cells(a));
    CountUnmasked(Cells(a))
  }

  /** mask.sum(): the number of masked elements (std_stat_countnull). */
  function CountNull(a: MaskedArray): (n: nat)
    ensures n <= Size(a)
  {
    CountSplit(Cells(a));
    CountMasked(Cells(a))
  }

  /** Every element is either counted or counted as null. */
  lemma {:induction false} CountSplit(s: seq<Pixel>)
    ensures CountUnmasked(s) + CountMasked(s) == |s|
  {
    if s != [] {
      CountSplit(s[1..]);
    }
  }

  /** count and countnull sum to the size of the array. */
  lemma CountPlusCountNull(a: MaskedArray)
    ensures Count(a) + CountNull(a) == Size(a)
  {
    CountSplit(Cells(a));
  }

  /** MaskedArray.mean(): None stands for the NaN numpy produces when no
      element is unmasked, an empty array included. */
  function Mean(a: MaskedArray): (m: Option<real>)
    ensures m.None? <==> Count(a) == 0
  {
    if Count(a) == 0 then None else Some(SumUnmasked(Cells(a)) / Count(a) as real)
  }

  /** The unmasked elements all lie in [lo, hi]. */
  ghost predicate UnmaskedWithin(s: seq<Pixel>, lo: real, hi: real) {
    forall i :: 0 <= i < |s| && !s[i].masked ==> lo <= s[i].value <= hi
  }

  lemma {:induction false} SumUnmaskedBounds(s: seq<Pixel>, lo: real, hi: real)
    requires UnmaskedWithin(s, lo, hi)
    ensures lo * CountUnmasked(s) as real <= SumUnmasked(s) <= hi * CountUnmasked(s) as real
  {
    if s != [] {
      assert UnmaskedWithin(s[1..], lo, hi) by {
        forall i | 0 <= i < |s[1..]| && !s[1..][i].masked ensures lo <= s[1..][i].value <= hi {
          assert s[1..][i] == s[i + 1];
        }
      }
      SumUnmaskedBounds(s[1..], lo, hi);
      if !s[0].masked {
        assert lo <= s[0].value <= hi;
        AddBounds(lo, hi, CountUnmasked(s[1..]) as real, SumUnmasked(s[1..]), s[0].value);
      }
    }
  }

  lemma AddBounds(lo: real, hi: real, c: real, sum: real, v: real)
    requires lo * c <= sum <= hi * c && lo <= v <= hi
    ensures lo * (c + 1.0) <= v + sum <= hi * (c + 1.0)
  {
    assert lo * (c + 1.0) == lo * c + lo && hi * (c + 1.0) == hi * c + hi;
  }

  /** The mean lies between the least and the greatest unmasked element. */
  lemma MeanWithinBounds(a: MaskedArray, lo: real, hi: real)
    requires UnmaskedWithin(Cells(a), lo, hi)
    requires Mean(a).Some?
    ensures lo <= Mean(a).value <= hi
  {
    var s := Cells(a);
    var n := CountUnmasked(s) as real;
    SumUnmaskedBounds(s, lo, hi);
    assert n > 0.0;
    assert lo * n <= SumUnmasked(s) <= hi * n;
    DivideBetween(SumUnmasked(s), n, lo, hi);
  }

  lemma DivideBetween(sum: real, n: real, lo: real, hi: real)
    requires n > 0.0 && lo * n <= sum <= hi * n
    ensures lo <= sum / n <= hi
  {
    assert (sum / n) * n == sum;
  }

  function SumSquaredDeviation(s: seq<Pixel>, mean: real): (r: real)
    ensures r >= 0.0
  {
    if s == [] then 0.0
    else
      var d := if s[0].masked then 0.0 else s[0].value - mean;
      SquareNonNegative(d);
      d * d + SumSquaredDeviation(s[1..], mean)
  }

  lemma SquareNonNegative(d: real)
    ensures d * d >= 0.0
  {
    if d < 0.0 {
      assert d * d == (-d) * (-d);
    }
  }

  /** The population variance of the unmasked elements; None when there are
      none. The standard deviation std_stat_stdev stores is its square root. */
  function Variance(a: MaskedArray): (v: Option<real>)
    ensures v.None? <==> Count(a) == 0
    ensures v.Some? ==> v.value >= 0.0
  {
    match Mean(a)
    case None => None
    case Some(m) => Some(SumSquaredDeviation(Cells(a), m) / Count(a) as real)
  }

  /** The null value a read uses for a band: ignore_val when it is truthy
      (given and non-zero), else the band's own no-data value. */
  function EffectiveNodata(ignore: Option<real>, native: Option<real>): (n: Option<real>)
    ensures ignore.Some? && ignore.value != 0.0 ==> n == ignore
    ensures ignore.None? || ignore.value == 0.0 ==> n == native
  {
    if ignore.Some? && ignore.value != 0.0 then ignore else native
  }

  /** A band of values with its null mask: an element is masked exactly when
      there is a null value and the element equals it. */
  function MaskBand(values: seq<seq<real>>, nodata: Option<real>): (g: Grid)
    ensures |g| == |values|
    ensures forall r :: 0 <= r < |g| ==> |g[r]| == |values[r]|
    ensures forall r, c :: 0 <= r < |g| && 0 <= c < |g[r]| ==>
      g[r][c].value == values[r][c] &&
      (g[r][c].masked <==> nodata.Some? && values[r][c] == nodata.value)
  {
    seq(|values|, r requires 0 <= r < |values| =>
      seq(|values[r]|, c requires 0 <= c < |values[r]| =>
        Pixel(values[r][c], nodata.Some? && values[r][c] == nodata.value)))
  }

  /** Masking with no null value masks nothing: count is the whole size. */
  lemma {:induction false} NoNodataMasksNothing(s: seq<Pixel>)
    requires forall i :: 0 <= i < |s| ==> !s[i].masked
    ensures CountUnmasked(s) == |s| && CountMasked(s) == 0
  {
    if s != [] {
      assert forall i :: 0 <= i < |s[1..]| ==> !s[1..][i].masked by {
        forall i | 0 <= i < |s[1..]| ensures !s[1..][i].masked { assert s[1..][i] == s[i + 1]; }
      }
      NoNodataMasksNothing(s[1..]);
    }
  }

  /** The count and countnull examples of the test suite: the 1 x 2 x 5
      array of 0 .. 9 with 0 masked, and with 0, 1 and 2 masked; the
      unmasked 1 x 4 x 4 array of 4 .. 19; and an empty array. */
  lemma CountExamples()
    ensures Count([[TenRow(0, 1), TenRow(5, 0)]]) == 9 && CountNull([[TenRow(0, 1), TenRow(5, 0)]]) == 1
    ensures CountNull([[TenRow(0, 3), TenRow(5, 0)]]) == 3
    ensures var a := [seq(4, r => seq(4, c => Pixel((4 + 4 * r + c) as real, false)))];
            Count(a) == 16 && CountNull(a) == 0
    ensures Count([]) == 0 && CountNull([]) == 0 && Mean([]).None?
  {
    TenRowsCount(1);
    TenRowsCount(3);
    UnmaskedSquareCount();
  }

  lemma {:induction false} CountAppend(a: seq<Pixel>, b: seq<Pixel>)
    ensures CountUnmasked(a + b) == CountUnmasked(a) + CountUnmasked(b)
    ensures CountMasked(a + b) == CountMasked(a) + CountMasked(b)
  {
    if a == [] {
      assert a + b == b;
    } else {
      assert (a + b)[0] == a[0] && (a + b)[1..] == a[1..] + b;
      CountAppend(a[1..], b);
    }
  }

  /** A sequence whose first m elements are the masked ones has m masked
      elements and the rest unmasked. */
  lemma {:induction false} MaskedPrefixCount(s: seq<Pixel>, m: nat)
    requires m <= |s| && forall i :: 0 <= i < |s| ==> (s[i].masked <==> i < m)
    ensures CountMasked(s) == m && CountUnmasked(s) == |s| - m
  {
    if s != [] {
      MaskedPrefixCount(s[1..], if m > 0 then m - 1 else 0);
    }
  }

  /** The five values from..from+4 in a row, the first `masked` of them
      masked. */
  function TenRow(from: nat, masked: nat): seq<Pixel> {
    seq(5, i => Pixel((from + i) as real, i < masked))
  }

  lemma TenRowsCount(m: nat)
    requires m <= 5
    ensures Count([[TenRow(0, m), TenRow(5, 0)]]) == 10 - m
    ensures CountNull([[TenRow(0, m), TenRow(5, 0)]]) == m
  {
    var a := TenRow(0, m);
    var b := TenRow(5, 0);
    assert Flatten([a, b]) == a + Flatten([b]);
    assert Flatten([b]) == b + [];
    assert Cells([[a, b]]) == a + b;
    CountSplit(a + b);
    NoNodataMasksNothing(b);
    CountAppend(a, b);
    MaskedPrefixCount(a, m);
  }

  lemma UnmaskedSquareCount()
    ensures var a := [seq(4, r => seq(4, c => Pixel((4 + 4 * r + c) as real, false)))];
            Count(a) == 16 && CountNull(a) == 0
  {
    var rows := seq(4, r => seq(4, c => Pixel((4 + 4 * r + c) as real, false)));
    assert Flatten(rows[4..]) == [];
    forall r | 0 <= r < 4 ensures Flatten(rows[r..]) == rows[r] + Flatten(rows[r + 1..]) {
      assert rows[r..][0] == rows[r] && rows[r..][1..] == rows[r + 1..];
    }
    var f: seq<Pixel> := Flatten(rows);
    assert f == rows[0] + (rows[1] + (rows[2] + (rows[3] + [])));
    assert forall i :: 0 <= i < |f| ==> !f[i].masked;
    assert Cells([rows]) == f;
    NoNodataMasksNothing(f);
  }
}
