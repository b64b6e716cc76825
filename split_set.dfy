/** `ProtSplitSet`: cut a set into `n` consecutive chunks whose sizes differ
    by at most one, larger chunks first. */
module SplitSets {
  import opened Wrappers
  import opened SetItems
  import opened Numerals

  /** The `ns` list: `len // n + (1 if i < len % n else 0)` for `i` in
      `range(n)`; empty when `n <= 0` (then `range(n)` is empty and no
      division happens). For a non-negative length and positive `n`,
      Python's `//` and `%` agree with Dafny's. */
  function ChunkSizes(size: nat, n: int): (ns: seq<nat>)
    ensures |ns| == if n > 0 then n else 0
  {
    if n <= 0 then []
    else seq(n, i requires 0 <= i < n => size / n + (if i < size % n then 1 else 0))
  }

  function Sum(xs: seq<nat>): nat
  {
    if xs == [] then 0 else Sum(xs[..|xs| - 1]) + xs[|xs| - 1]
  }

  /** Where chunk `k` starts: the sizes of the chunks before it added up. */
  function ChunkStart(size: nat, n: int, k: nat): nat
    requires n > 0
  {
    k * (size / n) + (if k < size % n then k else size % n)
  }

  lemma ChunkStartStep(size: nat, n: int, k: nat)
    requires 0 <= k < n
    ensures ChunkStart(size, n, k + 1) == ChunkStart(size, n, k) + ChunkSizes(size, n)[k]
  {
    assert (k + 1) * (size / n) == k * (size / n) + size / n;
  }

  lemma ChunkStartEnd(size: nat, n: int)
    requires n > 0
    ensures ChunkStart(size, n, n) == size
  {
  }

  /** The first `k` sizes add up to where chunk `k` starts. */
  lemma {:induction false} ChunkSizesPrefixSum(size: nat, n: int, k: nat)
    requires 0 <= k <= n && n > 0
    ensures Sum(ChunkSizes(size, n)[..k]) == ChunkStart(size, n, k)
  {
    var ns := ChunkSizes(size, n);
    if k > 0 {
      ChunkSizesPrefixSum(size, n, k - 1);
      assert ns[..k][..k - 1] == ns[..k - 1];
      ChunkStartStep(size, n, k - 1);
    }
  }

  /** The sizes add up to the length of the set (for `n > 0`), never
      increase, and differ by at most one. */
  lemma ChunkSizesPartition(size: nat, n: int)
    requires n > 0
    ensures Sum(ChunkSizes(size, n)) == size
    ensures forall i, j :: 0 <= i <= j < n ==> ChunkSizes(size, n)[j] <= ChunkSizes(size, n)[i]
    ensures forall i, j :: 0 <= i < n && 0 <= j < n ==> ChunkSizes(size, n)[i] <= ChunkSizes(size, n)[j] + 1
  {
    ChunkSizesPrefixSum(size, n, n);
    assert ChunkSizes(size, n)[..n] == ChunkSizes(size, n);
    ChunkStartEnd(size, n);
  }

  /** A chunk that starts before the end of the set is not empty. */
  lemma ChunkNotEmptyBeforeEnd(size: nat, n: int, k: nat)
    requires 0 <= k < n
    requires ChunkStart(size, n, k) < size
    ensures ChunkSizes(size, n)[k] >= 1
  {
    if size / n == 0 {
      assert size == size % n;
    }
  }

  /** Chunks start in order. */
  lemma ChunkStartMonotone(size: nat, n: int, j: nat, k: nat)
    requires n > 0 && j <= k
    ensures ChunkStart(size, n, j) <= ChunkStart(size, n, k)
  {
    assert j * (size / n) <= k * (size / n);
  }

  /** Once chunk `pos` is full and elements remain, there is a next chunk,
      it starts at the current element, and it has room. */
  lemma AdvanceChunk(size: nat, n: int, pos: nat, e: nat)
    requires 0 <= pos < n
    requires e == ChunkStart(size, n, pos) + ChunkSizes(size, n)[pos] && e < size
    ensures pos + 1 < n && ChunkStart(size, n, pos + 1) == e
    ensures ChunkSizes(size, n)[pos + 1] >= 1
  {
    ChunkStartStep(size, n, pos);
    ChunkStartEnd(size, n);
    ChunkNotEmptyBeforeEnd(size, n, pos + 1);
  }

  /** When the elements run out inside chunk `pos`, every later chunk is
      empty: they all start at the end. */
  lemma ChunksAfterEnd(size: nat, n: int, pos: nat)
    requires 0 <= pos < n
    requires ChunkStart(size, n, pos) + ChunkSizes(size, n)[pos] >= size
    ensures forall k :: pos < k <= n ==> ChunkStart(size, n, k) == size
  {
    ChunkStartStep(size, n, pos);
    ChunkStartEnd(size, n);
    forall k | pos < k <= n ensures ChunkStart(size, n, k) == size {
      ChunkStartMonotone(size, n, pos + 1, k);
      ChunkStartMonotone(size, n, k, n);
    }
  }

  /** Chunk `k` of `items`: the elements from where it starts to where the
      next one starts. */
  function Chunk<T>(items: seq<T>, n: int, k: nat): (c: seq<T>)
    requires 0 <= k < n
    ensures |c| == ChunkSizes(|items|, n)[k]
  {
    ChunkStartStep(|items|, n, k);
    ChunkStartMonotone(|items|, n, k + 1, n);
    ChunkStartEnd(|items|, n);
    items[ChunkStart(|items|, n, k)..ChunkStart(|items|, n, k + 1)]
  }

  /** The table of chunk starts, as the split loop walks it. */
  lemma ChunkStartTable(size: nat, n: int, starts: seq<nat>)
    requires n > 0
    requires starts == seq(n + 1, k requires 0 <= k <= n => ChunkStart(size, n, k))
    ensures starts[0] == 0 && starts[n] == size
    ensures forall k :: 0 <= k < n ==> starts[k + 1] == starts[k] + ChunkSizes(size, n)[k]
    ensures forall k :: 0 <= k <= n ==> starts[k] <= size
  {
    ChunkStartEnd(size, n);
    forall k | 0 <= k < n ensures starts[k + 1] == starts[k] + ChunkSizes(size, n)[k] {
      ChunkStartStep(size, n, k);
    }
    forall k | 0 <= k <= n ensures starts[k] <= size {
      ChunkStartMonotone(size, n, k, n);
    }
  }

  /** `IndexOutOfRange`: `ns[pos]` on an empty `ns` raises. */
  datatype SplitError = IndexOutOfRange

  /** Splitting succeeds unless there are elements and no chunks. */
  predicate SplitSucceeds(size: nat, n: int)
  {
    n > 0 || size == 0
  }

  /** `ProtSplitSet.createOutputStep` on the id-ordered iteration: subset `k`
      is the `k`-th run of `ChunkSizes` consecutive elements, of the input
      class. With no subsets requested, the first element raises (`ns` is
      empty), and an empty input gives no output at all. */
  method SplitCreateOutput<V>(inputSet: EMSet<V>, n: int) returns (r: Result<seq<EMSet<V>>, SplitError>)
    ensures r.Ok? <==> SplitSucceeds(|inputSet.items|, n)
    ensures r.Ok? ==> |r.value| == |ChunkSizes(|inputSet.items|, n)|
    ensures r.Ok? && n > 0 ==>
              forall k :: 0 <= k < n ==> r.value[k] == EMSet(inputSet.className, Chunk(inputSet.items, n, k))
  {
    var elements := inputSet.items;
    var size := |elements|;
    var ns := ChunkSizes(size, n);
    if n <= 0 {
      if size > 0 {
        return Err(IndexOutOfRange);
      }
      return Ok([]);
    }
    var subsets: seq<seq<Obj<V>>> := seq(n, _ => []);
    ghost var starts := seq(n + 1, k requires 0 <= k <= n => ChunkStart(size, n, k));
    ChunkStartTable(size, n, starts);
    var pos, i := 0, 0;
    var e := 0;
    while e < size
      invariant 0 <= e <= size
      invariant |subsets| == n
      invariant 0 <= pos < n && 0 <= i <= ns[pos] && e == starts[pos] + i
      invariant forall k :: 0 <= k < pos ==> subsets[k] == Chunk(elements, n, k)
      invariant subsets[pos] == elements[starts[pos]..e]
      invariant forall k :: pos < k < n ==> subsets[k] == []
    {
      if i >= ns[pos] {
        AdvanceChunk(size, n, pos, e);
        assert subsets[pos] == Chunk(elements, n, pos);
        pos := pos + 1;
        i := 0;
      }
      subsets := subsets[pos := subsets[pos] + [elements[e]]];
      i := i + 1;
      e := e + 1;
    }
    ChunksAfterEnd(size, n, pos);
    r := Ok(seq(n, k requires 0 <= k < n => EMSet(inputSet.className, subsets[k])));
  }

  // ---------------------------------------------------------------------
  // Output names

  /** The output names: `'output' + className.replace('SetOf', '') + '%02d' % i`
      for `i` in `1..n`. */
  function SplitOutputKeys(className: string, n: int): (keys: seq<string>)
    ensures |keys| == if n > 0 then n else 0
  {
    var count := if n > 0 then n else 0;
    seq(count, k requires 0 <= k < count => OutputKey(className) + TwoDigits(k + 1))
  }

  /** Each output name is the class key followed by the subset number, and
      no two subsets share a name. */
  lemma SplitOutputKeysDistinct(className: string, n: int)
    ensures var keys := SplitOutputKeys(className, n);
            && (forall k :: 0 <= k < |keys| ==>
                  |keys[k]| > |OutputKey(className)| && keys[k][..|OutputKey(className)|] == OutputKey(className)
                  && ParseDecimal(keys[k][|OutputKey(className)|..]) == k + 1)
            && (forall a, b :: 0 <= a < b < |keys| ==> keys[a] != keys[b])
  {
    var keys := SplitOutputKeys(className, n);
    var prefix := OutputKey(className);
    forall k | 0 <= k < |keys|
      ensures |keys[k]| > |prefix| && keys[k][..|prefix|] == prefix
      ensures ParseDecimal(keys[k][|prefix|..]) == k + 1
    {
      assert keys[k][|prefix|..] == TwoDigits(k + 1);
      TwoDigitsRoundTrip(k + 1);
    }
  }

  /** `ProtSplitSet._validate`: an error when the set has fewer elements
      than the subsets requested. */
  function ValidateSplit(size: nat, numberOfSets: int): (errors: seq<string>)
    ensures errors != [] <==> size < numberOfSets
  {
    if size < numberOfSets
    then ["The number of subsets requested is greater than", "the number of elements in the input set."]
    else []
  }

  /** As written, validation lets a zero subset count through, and the
      split then fails on the first element. */
  lemma ValidateSplitAdmitsZeroSets()
    ensures ValidateSplit(1, 0) == [] && !SplitSucceeds(1, 0)
  {
  }

  /** Validation as evidently intended: also rejects a count below one. */
  function ValidateSplitCorrected(size: nat, numberOfSets: int): (errors: seq<string>)
    ensures errors != [] <==> numberOfSets < 1 || size < numberOfSets
  {
    if numberOfSets < 1 then ["The number of subsets must be at least 1."]
    else ValidateSplit(size, numberOfSets)
  }

  /** With the corrected validation the split always succeeds and every
      subset receives at least one element. */
  lemma ValidatedSplitFillsEverySubset(size: nat, n: int)
    requires ValidateSplitCorrected(size, n) == []
    ensures SplitSucceeds(size, n)
    ensures forall k :: 0 <= k < n ==> ChunkSizes(size, n)[k] >= 1
  {
    assert size / n >= 1 by {
      assert n <= size;
    }
  }
}
