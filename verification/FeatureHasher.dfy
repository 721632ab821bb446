/** The streaming hasher: features are pushed into growing vectors, which are then
    canonicalised and written out as one dense row per sample. */
module FeatureHashers {
  import opened CsrRows
  import opened CsrMatrices
  import opened FeatureHashing
  import opened OutputSlices
  import Murmur32

  ghost predicate PowerOfTwo(n: nat) {
    n == 1 || (n > 1 && n % 2 == 0 && PowerOfTwo(n / 2))
  }

  /** Vector resize: cut off, or pad with zeros. */
  function Resized(v: seq<real>, n: nat): (w: seq<real>)
    ensures |w| == n
  {
    if n <= |v| then v[..n] else v + Zeros(n - |v|)
  }

  lemma EncodeSnoc(cfg: Config, sample: seq<Feature>, f: Feature)
    requires Supported(cfg)
    ensures Encode(cfg, sample + [f])
         == Encode(cfg, sample) + (if f.value == 0.0 then [] else [EncodeFeature(cfg, f)])
  {
    assert (sample + [f])[..|sample|] == sample;
  }

  lemma EncodeAllSnoc(cfg: Config, samples: seq<seq<Feature>>, sample: seq<Feature>)
    requires Supported(cfg)
    ensures EncodeAll(cfg, samples + [sample]) == EncodeAll(cfg, samples) + [Encode(cfg, sample)]
    ensures Flat(EncodeAll(cfg, samples + [sample])) == Flat(EncodeAll(cfg, samples)) + Encode(cfg, sample)
    ensures Starts(EncodeAll(cfg, samples + [sample]))
         == Starts(EncodeAll(cfg, samples)) + [|Flat(EncodeAll(cfg, samples)) + Encode(cfg, sample)|]
  {
    var rows := EncodeAll(cfg, samples + [sample]);
    assert rows == EncodeAll(cfg, samples) + [Encode(cfg, sample)];
    assert rows[..|samples|] == EncodeAll(cfg, samples);
  }

  lemma EncodeAllInRange(cfg: Config, samples: seq<seq<Feature>>)
    requires Supported(cfg)
    ensures AllInRange(EncodeAll(cfg, samples), cfg.size)
  {
    forall row | row in EncodeAll(cfg, samples) ensures InRange(row, cfg.size) {
      var r :| 0 <= r < |samples| && row == Encode(cfg, samples[r]);
      EncodeInRange(cfg, samples[r]);
    }
  }

  /** The configuration of a hasher: its hash is MurmurHash3 under the seed, read as a
      signed integer. */
  ghost predicate Configures(cfg: Config, size: nat, alternateSign: bool, seed: bv32) {
    && cfg.size == size
    && cfg.alternateSign == alternateSign
    && HashesWith(cfg, seed)
  }

  ghost predicate HashesWith(cfg: Config, seed: bv32) {
    forall name: Name {:trigger Murmur32.Hash(name, seed)} ::
      cfg.hash(name) == AsInt32(Murmur32.Hash(name, seed))
  }

  lemma CellsOfSnoc(indices: seq<int>, data: seq<real>, c: nat, v: real)
    requires |indices| == |data|
    requires forall i :: 0 <= i < |indices| ==> 0 <= indices[i]
    ensures CellsOf(indices + [c], data + [v]) == CellsOf(indices, data) + [Cell(c, v)]
  {}

  /** The three vectors hold the closed samples and, behind them, the open one. */
  ghost predicate Pushed(cfg: Config, closed: seq<seq<Feature>>, open: seq<Feature>,
                         indices: seq<int>, indptr: seq<int>, values: seq<real>, sz: int)
    requires Supported(cfg)
  {
    && sz == |indices| <= |values|
    && indptr == Starts(EncodeAll(cfg, closed))
    && (forall i :: 0 <= i < |indices| ==> 0 <= indices[i])
    && CellsOf(indices, values[..sz]) == Flat(EncodeAll(cfg, closed)) + Encode(cfg, open)
  }

  lemma PushedCell(cfg: Config, closed: seq<seq<Feature>>, open: seq<Feature>, f: Feature,
                   indices: seq<int>, indptr: seq<int>, values: seq<real>, values': seq<real>)
    requires Supported(cfg)
    requires Pushed(cfg, closed, open, indices, indptr, values, |indices|)
    requires |indices| < |values'|
    requires values'[..|indices|] == values[..|indices|]
    requires f.value != 0.0 && values'[|indices|] == SignedValue(cfg, f)
    ensures Pushed(cfg, closed, open + [f], indices + [EncodeFeature(cfg, f).col], indptr, values', |indices| + 1)
  {
    EncodeSnoc(cfg, open, f);
    var n := |indices|;
    var grown := indices + [EncodeFeature(cfg, f).col];
    var cells := Flat(EncodeAll(cfg, closed)) + Encode(cfg, open);
    assert values'[..n + 1] == values[..n] + [SignedValue(cfg, f)];
    CellsOfSnoc(indices, values[..n], EncodeFeature(cfg, f).col, SignedValue(cfg, f));
    assert CellsOf(grown, values'[..n + 1]) == CellsOf(indices, values[..n]) + [EncodeFeature(cfg, f)];
    assert cells + [EncodeFeature(cfg, f)] == Flat(EncodeAll(cfg, closed)) + Encode(cfg, open + [f]);
  }

  lemma PushedZero(cfg: Config, closed: seq<seq<Feature>>, open: seq<Feature>, f: Feature,
                   indices: seq<int>, indptr: seq<int>, values: seq<real>)
    requires Supported(cfg)
    requires Pushed(cfg, closed, open, indices, indptr, values, |indices|)
    requires f.value == 0.0
    ensures Pushed(cfg, closed, open + [f], indices, indptr, values, |indices|)
  {
    EncodeSnoc(cfg, open, f);
    assert Encode(cfg, open + [f]) == Encode(cfg, open);
  }

  lemma PushedSample(cfg: Config, closed: seq<seq<Feature>>, open: seq<Feature>,
                     indices: seq<int>, indptr: seq<int>, values: seq<real>)
    requires Supported(cfg)
    requires Pushed(cfg, closed, open, indices, indptr, values, |indices|)
    ensures Pushed(cfg, closed + [open], [], indices, indptr + [|indices|], values, |indices|)
  {
    EncodeAllSnoc(cfg, closed, open);
    var cells := Flat(EncodeAll(cfg, closed)) + Encode(cfg, open);
    assert |CellsOf(indices, values[..|indices|])| == |indices|;
    assert cells + Encode(cfg, []) == cells;
  }

  /** The closed samples are what the shrunk vectors hold as a matrix. */
  lemma PushedHolds(cfg: Config, closed: seq<seq<Feature>>, open: seq<Feature>,
                    indices: seq<int>, indptr: seq<int>, values: seq<real>)
    requires Supported(cfg)
    requires Pushed(cfg, closed, open, indices, indptr, values, |indices|)
    ensures |indptr| == |closed| + 1
    ensures Holds(EncodeAll(cfg, closed), indptr, indices, Resized(values, |indices|))
  {
    var n := |indices|;
    assert Resized(values, n) == values[..n];
  }

  /** Appends a value, doubling the buffer when it is full. */
  method PushValue(values: seq<real>, sz: nat, value: real) returns (values': seq<real>)
    requires sz <= |values| && PowerOfTwo(|values|)
    ensures sz < |values'| && PowerOfTwo(|values'|)
    ensures values'[..sz] == values[..sz] && values'[sz] == value
  {
    values' := values;
    if sz == |values'| {
      values' := Resized(values', 2 * |values'|);
      assert 2 * |values| / 2 == |values|;
    }
    values' := values'[sz := value];
  }

  class FeatureHasher {
    var alternateSign: bool
    var output: array?<real>
    var base: nat // the output pointer points here
    var size: nat
    var seed: bv32
    var multipleSamples: bool
    var indices: seq<int>
    var indptr: seq<int>
    var values: seq<real>
    var sz: int
    ghost var closed: seq<seq<Feature>> // samples already finalised
    ghost var open: seq<Feature>        // features since then
    ghost var cfg: Config               // the parameters at the time of start

    ghost predicate Fresh()
      reads this
    {
      indices == [] && indptr == [] && values == []
    }

    ghost predicate Running()
      reads this
    {
      && output != null
      && Configures(cfg, size, alternateSign, seed)
      && Supported(cfg)
      && Pushed(cfg, closed, open, indices, indptr, values, sz)
      && PowerOfTwo(|values|)
    }

    /** The samples that finalize will write. */
    ghost function Samples(): seq<seq<Feature>>
      reads this
    {
      if multipleSamples then closed else closed + [open]
    }

    constructor ()
      ensures Fresh() && alternateSign && !multipleSamples && seed == 0 && size == 0 && output == null
    {
      alternateSign, multipleSamples := true, false;
      output, base, size, seed := null, 0, 0, 0;
      indices, indptr, values, sz := [], [], [], 0;
      closed, open := [], [];
      cfg := MurmurConfig(0, true, 0);
    }

    method Reset()
      modifies this
      ensures Fresh() && alternateSign && !multipleSamples && seed == 0 && size == 0 && output == null
    {
      alternateSign := true;
      output, base := null, 0;
      size := 0;
      seed := 0;
      indices, indptr, values := [], [], [];
      multipleSamples := false;
      closed, open := [], [];
    }

    method SetOutput(newOutput: array<real>, newBase: nat)
      modifies `output, `base
      ensures output == newOutput && base == newBase
    {
      output, base := newOutput, newBase;
    }

    method SetSize(newSize: nat)
      modifies `size
      ensures size == newSize
    {
      size := newSize;
    }

    method SetAlternateSign(enable: bool)
      modifies `alternateSign
      ensures alternateSign == enable
    {
      alternateSign := enable;
    }

    method SetSeed(newSeed: bv32)
      modifies `seed
      ensures seed == newSeed
    {
      seed := newSeed;
    }

    method SetMultipleSamples(enable: bool)
      modifies `multipleSamples
      ensures multipleSamples == enable
    {
      multipleSamples := enable;
    }

    /** Only the first `size` output cells are cleared. After a reset the hasher holds nothing;
        without one the old indices and row starts stay in front of the new ones. */
    method Start()
      requires output != null && size > 0
      requires base + size <= output.Length
      modifies `indices, `indptr, `values, `sz, `closed, `open, `cfg, output
      ensures indices == old(indices) && indptr == old(indptr) + [0]
      ensures values == Resized(old(values), 1) && sz == 0
      ensures old(Fresh()) && size <= 0x8000_0000 ==> Running()
      ensures closed == [] && open == [] && cfg == MurmurConfig(size, alternateSign, seed)
      ensures Replaces(old(output[..]), output[..], base, Zeros(size))
    {
      ClearCells(output, base, size);
      sz := 0;
      values := Resized(values, 1);
      indptr := indptr + [0];
      closed, open := [], [];
      cfg := MurmurConfig(size, alternateSign, seed);
      assert size <= 0x8000_0000 ==> EncodeAll(cfg, []) == [];
    }

    method Reduce(p1: seq<bv8>, p2: real)
      requires Running()
      requires |p1| < 0x8000_0000
      modifies `indices, `values, `sz, `open
      ensures Running()
      ensures open == old(open) + [Feature(CString(p1), p2)]
    {
      ghost var f := Feature(CString(p1), p2);
      if p2 == 0.0 {
        PushedZero(cfg, closed, open, f, indices, indptr, values);
        open := open + [f];
        return;
      }
      PushFeature(p1, p2);
      open := open + [f];
    }

    method PushFeature(p1: seq<bv8>, p2: real)
      requires Running()
      requires |p1| < 0x8000_0000 && p2 != 0.0
      modifies `indices, `values, `sz
      ensures Pushed(cfg, closed, open + [Feature(CString(p1), p2)], indices, indptr, values, sz)
      ensures PowerOfTwo(|values|)
    {
      ghost var f := Feature(CString(p1), p2);
      var h := SignedHash(p1);
      var idx := Column(h, size);
      var value := p2;
      if alternateSign {
        value := value * (if h >= 0 then 1.0 else -1.0);
      }
      assert value == SignedValue(cfg, f) && idx == EncodeFeature(cfg, f).col;
      ghost var before := values;
      values := PushValue(values, sz, value);
      PushedCell(cfg, closed, open, f, indices, indptr, before, values);
      indices := indices + [idx];
      sz := sz + 1;
    }

    /** The hash of the C string, read back as a signed integer. */
    method SignedHash(p1: seq<bv8>) returns (h: int)
      requires HashesWith(cfg, seed)
      requires |p1| < 0x8000_0000
      ensures h == cfg.hash(CString(p1))
    {
      var len := Strlen(p1);
      var u := Murmur32.MurmurHash3_x86_32(p1[..len], seed);
      h := AsInt32(u);
    }

    method ReduceString(stringValue: seq<bv8>)
      requires Running()
      requires |stringValue| < 0x8000_0000
      modifies `indices, `values, `sz, `open
      ensures Running()
      ensures open == old(open) + [Feature(CString(stringValue), 1.0)]
    {
      Reduce(stringValue, 1.0);
    }

    method FinalizeSample()
      requires Running()
      modifies `indptr, `closed, `open
      ensures Running()
      ensures closed == old(closed) + [old(open)] && open == []
    {
      PushedSample(cfg, closed, open, indices, indptr, values);
      indptr := indptr + [sz];
      closed := closed + [open];
      open := [];
    }

    /** Every finalised sample becomes a row of bucket totals; no other cell changes.
        Features after the last finalised sample contribute nothing, and without any
        sample nothing is written. */
    method Finalize()
      requires Running()
      requires base + |Buckets(cfg, Samples())| <= output.Length
      modifies `indices, `indptr, `values, `closed, `open, output
      ensures closed == old(Samples())
      ensures Replaces(old(output[..]), output[..], base, Buckets(cfg, closed))
      ensures closed != [] ==> Fresh()
    {
      if !multipleSamples {
        FinalizeSample();
      }
      assert closed == old(Samples());
      WriteClosed();
    }

    method WriteClosed()
      requires Running()
      requires base + |Buckets(cfg, closed)| <= output.Length
      modifies `indices, `indptr, `values, output
      ensures Replaces(old(output[..]), output[..], base, Buckets(cfg, closed))
      ensures closed != [] ==> Fresh()
    {
      PushedHolds(cfg, closed, open, indices, indptr, values);
      var nSamples := |indptr| - 1;
      if nSamples <= 0 {
        values := Resized(values, sz);
        assert closed == [];
        assert Buckets(cfg, closed) == [];
      } else {
        var arr := WriteOut(nSamples);
        CopyCells(arr, output, base);
      }
    }

    /** The matrix takes the vectors over, is canonicalised and written out. */
    method WriteOut(nSamples: nat) returns (arr: array<real>)
      requires Running() && nSamples == |closed|
      modifies `indices, `indptr, `values
      ensures Fresh()
      ensures fresh(arr) && arr[..] == Buckets(cfg, closed)
    {
      ghost var rows := EncodeAll(cfg, closed);
      PushedHolds(cfg, closed, open, indices, indptr, values);
      values := Resized(values, sz);
      var X := new CsrMatrix(nSamples, size, indptr, indices, values);
      indptr, indices, values := [], [], []; // moved from
      X.SumDuplicatesAndSort(rows);
      EncodeAllInRange(cfg, closed);
      OverwrittenIsDense(rows, size);
      DenseIsBuckets(cfg, closed);
      arr := X.ToDense(SumRows(rows));
    }
  }

  method ClearCells(a: array<real>, at: nat, n: nat)
    requires at + n <= a.Length
    modifies a
    ensures Replaces(old(a[..]), a[..], at, Zeros(n))
  {
    for i := 0 to n
      invariant forall k :: 0 <= k < a.Length ==> a[k] == if at <= k < at + i then 0.0 else old(a[k])
    {
      a[at + i] := 0.0;
    }
  }

  method CopyCells(source: array<real>, a: array<real>, at: nat)
    requires source != a
    requires at + source.Length <= a.Length
    modifies a
    ensures Replaces(old(a[..]), a[..], at, source[..])
  {
    for i := 0 to source.Length
      invariant forall k :: 0 <= k < a.Length ==> a[k] == if at <= k < at + i then source[k - at] else old(a[k])
    {
      a[at + i] := source[i];
    }
  }
}
