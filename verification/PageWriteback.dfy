/** Writing the database back to its file: only dirty pages, in runs, chunk by chunk. */
module PageWriteback {
  import opened Basics

  // ----- pages and bytes

  function PageOf(x: nat, pageSize: nat): nat
    requires pageSize > 0
  {
    x / pageSize
  }

  lemma PageRange(x: nat, a: nat, b: nat, pageSize: nat)
    requires pageSize > 0
    ensures a * pageSize <= x < b * pageSize <==> a <= PageOf(x, pageSize) < b
  {
    var p := x / pageSize;
    assert p * pageSize <= x < (p + 1) * pageSize;
    Times(a, p, pageSize);
    Times(p + 1, a, pageSize);
    Times(b, p, pageSize);
    Times(p + 1, b, pageSize);
  }

  lemma Times(a: int, b: int, c: nat)
    ensures a <= b ==> a * c <= b * c
  {
    if a <= b {
      assert (b - a) * c >= 0;
    }
  }

  /** The number of dirty pages in `dirty[from..to]`. */
  function CountDirty(dirty: seq<bool>, from: nat, to: nat): nat
    requires from <= to <= |dirty|
  {
    if from == to then 0 else CountDirty(dirty, from, to - 1) + if dirty[to - 1] then 1 else 0
  }

  lemma {:induction false} CountRun(dirty: seq<bool>, from: nat, i: nat, j: nat)
    requires from <= i <= j <= |dirty| && forall k | i <= k < j :: dirty[k]
    ensures CountDirty(dirty, from, j) == CountDirty(dirty, from, i) + (j - i)
    decreases j
  {
    if i < j {
      CountRun(dirty, from, i, j - 1);
    }
  }

  /** Each dirty page counts once, and a clean one not at all. */
  lemma {:induction false} CountIs(dirty: seq<bool>, from: nat, end: nat)
    requires from <= end <= |dirty|
    ensures CountDirty(dirty, from, end) == |set p: nat | from <= p < end && dirty[p]|
    decreases end
  {
    if from != end {
      CountIs(dirty, from, end - 1);
      var before := set p: nat | from <= p < end - 1 && dirty[p];
      assert (set p: nat | from <= p < end && dirty[p]) == if dirty[end - 1] then before + {end - 1} else before;
    }
  }

  /** `memcpy` between the same offsets of two mappings. */
  method Memcpy(dst: array<Byte>, src: array<Byte>, at: nat, n: nat)
    requires dst != src && at + n <= dst.Length && at + n <= src.Length
    modifies dst
    ensures forall x | 0 <= x < dst.Length :: dst[x] == if at <= x < at + n then src[x] else old(dst[x])
  {
    for k := 0 to n
      invariant forall x | 0 <= x < dst.Length :: dst[x] == if at <= x < at + k then src[x] else old(dst[x])
    {
      dst[at + k] := src[at + k];
    }
  }

  /** `memcpy` of the pages from `a` to `b`. */
  method CopyPages(memory: array<Byte>, file: array<Byte>, a: nat, b: nat, pageSize: nat)
    requires memory != file && pageSize > 0 && a <= b
    requires b * pageSize <= memory.Length && memory.Length == file.Length
    modifies file
    ensures forall x | 0 <= x < file.Length ::
      file[x] == if a <= PageOf(x, pageSize) < b then memory[x] else old(file[x])
  {
    hide PageOf;
    RunInside(a, b, b, pageSize);
    Memcpy(file, memory, a * pageSize, (b - a) * pageSize);
    forall x | 0 <= x < file.Length
      ensures file[x] == if a <= PageOf(x, pageSize) < b then memory[x] else old(file[x])
    {
      PageRange(x, a, b, pageSize);
    }
  }

  // ----- one chunk

  /** `update_file_from_region` for the `count` pages from `first` on: copies the dirty pages, each run
    * of them at once, and tells how many pages it wrote. `readable` says whether the page map could be
    * read and the file mapped. */
  method UpdateFile(memory: array<Byte>, file: array<Byte>, first: nat, count: nat, dirty: seq<bool>, pageSize: nat,
      readable: bool, writtenSoFar: nat)
      returns (ok: bool, written: nat)
    requires memory != file && pageSize > 0 && first + count <= |dirty|
    requires (first + count) * pageSize <= memory.Length && memory.Length == file.Length
    modifies file
    ensures ok == readable
    ensures !ok ==> file[..] == old(file[..]) && written == writtenSoFar
    ensures ok ==> written == writtenSoFar + |set p: nat | first <= p < first + count && dirty[p]|
    ensures ok ==> forall x | 0 <= x < file.Length ::
      file[x] == if first <= PageOf(x, pageSize) < first + count && dirty[PageOf(x, pageSize)] then memory[x]
        else old(file[x])
  {
    written := writtenSoFar;
    if !readable {
      return false, written;
    }
    hide PageOf;
    var i := 0;
    while i < count
      invariant 0 <= i <= count && written == writtenSoFar + CountDirty(dirty, first, first + i)
      invariant forall x | 0 <= x < file.Length ::
        file[x] == if first <= PageOf(x, pageSize) < first + i && dirty[PageOf(x, pageSize)] then memory[x]
          else old(file[x])
      decreases count - i
    {
      if dirty[first + i] {
        var j := i + 1;
        while j < count && dirty[first + j]
          invariant i < j <= count && forall k | first + i <= k < first + j :: dirty[k]
        {
          j := j + 1;
        }
        Times(first + j, first + count, pageSize);
        CopyPages(memory, file, first + i, first + j, pageSize);
        CountRun(dirty, first, first + i, first + j);
        written := written + (j - i);
        i := i + (j - i - 1);
      }
      i := i + 1;
    }
    CountIs(dirty, first, first + count);
    return true, written;
  }

  lemma RunInside(a: nat, b: nat, c: nat, pageSize: nat)
    requires a <= b <= c
    ensures a * pageSize + (b - a) * pageSize == b * pageSize <= c * pageSize
  {
    Times(b, c, pageSize);
  }

  // ----- all chunks

  /** `all_zeros` looks at words of 8 bytes. */
  method AllZeros(memory: array<Byte>, at: nat, n: nat) returns (r: bool)
    requires at + n <= memory.Length
    ensures r <==> forall x | at <= x < at + n / 8 * 8 :: memory[x] == 0
  {
    var p := 0;
    while p != n / 8
      invariant p <= n / 8 && forall x | at <= x < at + p * 8 :: memory[x] == 0
      decreases n / 8 - p
    {
      var w := at + p * 8;
      var word := [memory[w], memory[w + 1], memory[w + 2], memory[w + 3], memory[w + 4], memory[w + 5],
        memory[w + 6], memory[w + 7]];
      if word != [0, 0, 0, 0, 0, 0, 0, 0] {
        assert exists k :: 0 <= k < 8 && word[k] != 0;
        return false;
      }
      assert forall k | 0 <= k < 8 :: memory[w + k] == word[k] == 0;
      p := p + 1;
    }
    return true;
  }

  ghost predicate NonZero(memory: seq<Byte>, start: nat, end: nat) {
    exists y :: start <= y < end && y < |memory| && memory[y] != 0
  }

  predicate IsDirty(dirty: seq<bool>, x: nat, pageSize: nat)
    requires pageSize > 0
  {
    PageOf(x, pageSize) < |dirty| && dirty[PageOf(x, pageSize)]
  }

  /** Whether saving writes byte `x`, which lies in the chunk from `start` to `end`. The chunk goes by
    * its dirty pages if the instance is tracked and its page map can be read; otherwise it is written
    * whole, unless it is all zeros. */
  ghost predicate Copies(memory: seq<Byte>, dirty: seq<bool>, pageSize: nat, start: nat, end: nat, byPages: bool,
      x: nat)
    requires pageSize > 0
  {
    if byPages then IsDirty(dirty, x, pageSize) else NonZero(memory, start, end)
  }

  /** One pass of the loop of `save_database_file`, for the chunk that starts at `offset`. */
  method SaveChunk(memory: array<Byte>, file: array<Byte>, offset: nat, n: nat, dirty: seq<bool>, pageSize: nat,
      tracked: bool, readable: bool, writtenSoFar: nat)
      returns (written: nat)
    requires memory != file && pageSize > 0 && pageSize % 8 == 0
    requires memory.Length == file.Length == |dirty| * pageSize
    requires offset % pageSize == 0 && n % pageSize == 0 && offset + n <= memory.Length
    modifies file
    ensures forall x | 0 <= x < file.Length ::
      file[x] ==
        if offset <= x < offset + n && Copies(memory[..], dirty, pageSize, offset, offset + n, tracked && readable, x)
        then memory[x] else old(file[x])
    ensures offset / pageSize + n / pageSize <= |dirty|
    ensures written == writtenSoFar + if !(tracked && readable) then 0
      else |set p: nat | offset / pageSize <= p < offset / pageSize + n / pageSize && dirty[p]|
  {
    hide PageOf, NonZero;
    written := writtenSoFar;
    var ok := false;
    ChunkPages(offset, n, pageSize, |dirty|);
    if tracked {
      ok, written := UpdateFile(memory, file, offset / pageSize, n / pageSize, dirty, pageSize, readable, writtenSoFar);
      InChunk(offset, n, dirty, pageSize);
    }
    if !ok {
      Eighths(n, pageSize);
      var zeros := AllZeros(memory, offset, n);
      ZerosOrNot(memory[..], offset, offset + n);
      if !zeros {
        Memcpy(file, memory, offset, n);
      }
    }
  }

  lemma ZerosOrNot(memory: seq<Byte>, start: nat, end: nat)
    requires start <= end <= |memory|
    ensures NonZero(memory, start, end) <==> !(forall x | start <= x < end :: memory[x] == 0)
  {}

  lemma InChunk(offset: nat, n: nat, dirty: seq<bool>, pageSize: nat)
    requires pageSize > 0 && offset % pageSize == 0 && n % pageSize == 0 && offset + n <= |dirty| * pageSize
    ensures forall x: nat ::
      offset / pageSize <= PageOf(x, pageSize) < offset / pageSize + n / pageSize <==> offset <= x < offset + n
    ensures offset / pageSize + n / pageSize <= |dirty|
  {
    ChunkPages(offset, n, pageSize, |dirty|);
    forall x: nat
      ensures offset / pageSize <= PageOf(x, pageSize) < offset / pageSize + n / pageSize <==> offset <= x < offset + n
    {
      PageRange(x, offset / pageSize, offset / pageSize + n / pageSize, pageSize);
    }
  }

  lemma ChunkPages(offset: nat, n: nat, pageSize: nat, pages: nat)
    requires pageSize > 0 && offset % pageSize == 0 && n % pageSize == 0 && offset + n <= pages * pageSize
    ensures offset / pageSize * pageSize == offset && (offset / pageSize + n / pageSize) * pageSize == offset + n
    ensures offset / pageSize + n / pageSize <= pages
  {
    var a, b := offset / pageSize, n / pageSize;
    assert a * pageSize == offset && b * pageSize == n;
    assert (a + b) * pageSize == a * pageSize + b * pageSize;
    if a + b > pages {
      Times(pages + 1, a + b, pageSize);
    }
  }

  lemma Eighths(n: nat, pageSize: nat)
    requires pageSize > 0 && pageSize % 8 == 0 && n % pageSize == 0
    ensures n / 8 * 8 == n
  {
    var a, b := n / pageSize, pageSize / 8;
    assert n == a * pageSize == a * (8 * b) == 8 * (a * b);
  }

  // ----- the chunk loops

  /** The start of the chunk of byte `x`. */
  function ChunkStart(x: nat, increment: nat): nat
    requires increment > 0
  {
    x / increment * increment
  }

  /** Whether saving writes byte `x`. */
  ghost predicate Saves(memory: seq<Byte>, dirty: seq<bool>, pageSize: nat, increment: nat, tracked: bool,
      readable: nat -> bool, x: nat)
    requires pageSize > 0 && increment > 0
  {
    var start := ChunkStart(x, increment);
    Copies(memory, dirty, pageSize, start, Min(start + increment, |memory|), tracked && readable(start), x)
  }

  /** The file after saving. */
  ghost function SavedBytes(memory: seq<Byte>, file: seq<Byte>, dirty: seq<bool>, pageSize: nat, increment: nat,
      tracked: bool, readable: nat -> bool): seq<Byte>
    requires pageSize > 0 && increment > 0 && |memory| == |file|
  {
    seq(|memory|, x requires 0 <= x < |memory| =>
      if Saves(memory, dirty, pageSize, increment, tracked, readable, x) then memory[x] else file[x])
  }

  /** `save_database_file` */
  method SaveDatabaseFile(memory: array<Byte>, file: array<Byte>, dirty: seq<bool>, pageSize: nat, increment: nat,
      tracked: bool, readable: nat -> bool)
    requires memory != file && pageSize > 0 && pageSize % 8 == 0 && increment > 0 && increment % pageSize == 0
    requires memory.Length == file.Length == |dirty| * pageSize
    modifies file
    ensures file[..] == SavedBytes(memory[..], old(file[..]), dirty, pageSize, increment, tracked, readable)
  {
    hide Copies, ChunkStart;
    var offset, written := 0, 0;
    ghost var mem, was := memory[..], file[..];
    PageMultiples(|dirty|, pageSize);
    while offset != memory.Length
      invariant 0 <= offset <= memory.Length && offset % pageSize == 0
      invariant offset == memory.Length || offset % increment == 0
      invariant forall x | 0 <= x < file.Length ::
        file[x] == if x < offset && Saves(mem, dirty, pageSize, increment, tracked, readable, x) then memory[x]
          else was[x]
      decreases memory.Length - offset
    {
      var n := Min(increment, memory.Length - offset);
      NextChunk(offset, increment, memory.Length, pageSize);
      ghost var before := file[..];
      written := SaveChunk(memory, file, offset, n, dirty, pageSize, tracked, readable(offset), written);
      forall x | 0 <= x < file.Length ensures
        file[x] == if x < offset + n && Saves(mem, dirty, pageSize, increment, tracked, readable, x) then memory[x]
          else was[x]
      {
        assert before[x] == if x < offset && Saves(mem, dirty, pageSize, increment, tracked, readable, x)
          then memory[x] else was[x];
        if offset <= x < offset + n {
          StartOf(x, offset, increment);
        }
      }
      offset := offset + n;
    }
  }

  lemma PageMultiples(pages: nat, pageSize: nat)
    requires pageSize > 0
    ensures pages * pageSize % pageSize == 0
  {
    var x := pages * pageSize;
    Times(pages, pages + 1, pageSize);
    assert (pages + 1) * pageSize == x + pageSize;
    PageRange(x, pages, pages + 1, pageSize);
    Remainder(x, pageSize);
  }

  lemma Remainder(x: nat, m: nat)
    requires m > 0
    ensures x % m == x - x / m * m
  {}

  lemma NextChunk(offset: nat, increment: nat, length: nat, pageSize: nat)
    requires pageSize > 0 && increment > 0 && offset < length
    requires offset % pageSize == 0 && increment % pageSize == 0 && length % pageSize == 0 && offset % increment == 0
    ensures var n := Min(increment, length - offset);
      && n % pageSize == 0 && (offset + n) % pageSize == 0 && offset < offset + n <= length
      && (offset + n == length || (offset + n) % increment == 0)
  {
    SumMultiple(offset, increment, pageSize);
    SumMultiple(offset, increment, increment);
    DifferenceMultiple(length, offset, pageSize);
  }

  lemma SumMultiple(a: nat, b: nat, m: nat)
    requires m > 0 && a % m == 0 && b % m == 0
    ensures (a + b) % m == 0
  {
    assert a + b == (a / m + b / m) * m;
    PageMultiples(a / m + b / m, m);
  }

  lemma DifferenceMultiple(a: nat, b: nat, m: nat)
    requires m > 0 && b <= a && a % m == 0 && b % m == 0
    ensures (a - b) % m == 0
  {
    assert a - b == (a / m - b / m) * m;
    Times(a / m - b / m, -1, m);
    PageMultiples(a / m - b / m, m);
  }

  lemma StartOf(x: nat, offset: nat, increment: nat)
    requires increment > 0 && offset % increment == 0 && offset <= x < offset + increment
    ensures ChunkStart(x, increment) == offset
  {
    var c := offset / increment;
    assert c * increment == offset && (c + 1) * increment == offset + increment;
    PageRange(x, c, c + 1, increment);
  }

  /** The file is the memory afterwards if and only if every byte that is not written was right before. */
  lemma SavedExact(memory: seq<Byte>, file: seq<Byte>, dirty: seq<bool>, pageSize: nat, increment: nat, tracked: bool,
      readable: nat -> bool)
    requires pageSize > 0 && increment > 0 && |memory| == |file|
    ensures SavedBytes(memory, file, dirty, pageSize, increment, tracked, readable) == memory <==>
      forall x | 0 <= x < |memory| && !Saves(memory, dirty, pageSize, increment, tracked, readable, x) ::
        file[x] == memory[x]
  {
    hide Saves;
    var r := SavedBytes(memory, file, dirty, pageSize, increment, tracked, readable);
    if r == memory {
      forall x | 0 <= x < |memory| && !Saves(memory, dirty, pageSize, increment, tracked, readable, x)
        ensures file[x] == memory[x]
      {
        assert r[x] == memory[x];
      }
    }
  }

  /** Saving by pages is right when the pages that are not dirty already agree with the file. */
  lemma SavedByPages(memory: seq<Byte>, file: seq<Byte>, dirty: seq<bool>, pageSize: nat, increment: nat,
      readable: nat -> bool)
    requires pageSize > 0 && increment > 0 && |memory| == |file|
    requires forall x | 0 <= x < |memory| && !IsDirty(dirty, x, pageSize) :: file[x] == memory[x]
    requires forall x | 0 <= x < |memory| && memory[x] == 0 && !readable(ChunkStart(x, increment)) :: file[x] == 0
    ensures SavedBytes(memory, file, dirty, pageSize, increment, true, readable) == memory
  {
    forall x | 0 <= x < |memory| && !Saves(memory, dirty, pageSize, increment, true, readable, x)
      ensures file[x] == memory[x]
    {
      if !readable(ChunkStart(x, increment)) {
        UnsavedIsZero(memory, dirty, pageSize, increment, true, readable, x);
      }
    }
    SavedExact(memory, file, dirty, pageSize, increment, true, readable);
  }

  lemma UnsavedIsZero(memory: seq<Byte>, dirty: seq<bool>, pageSize: nat, increment: nat, tracked: bool,
      readable: nat -> bool, x: nat)
    requires pageSize > 0 && increment > 0 && x < |memory| && !(tracked && readable(ChunkStart(x, increment)))
    requires !Saves(memory, dirty, pageSize, increment, tracked, readable, x)
    ensures memory[x] == 0
  {
    PageRange(x, x / increment, x / increment + 1, increment);
    assert ChunkStart(x, increment) <= x < Min(ChunkStart(x, increment) + increment, |memory|);
  }

  /** Each byte of the saved file, told by the chunk and the page in which it lies. */
  lemma SavedByte(memory: seq<Byte>, file: seq<Byte>, dirty: seq<bool>, pageSize: nat, increment: nat, tracked: bool,
      readable: nat -> bool, x: nat)
    requires pageSize > 0 && increment > 0 && |memory| == |file| && x < |memory|
    ensures var r := SavedBytes(memory, file, dirty, pageSize, increment, tracked, readable);
      && |r| == |file|
      && (tracked && readable(x / increment * increment) ==>
            r[x] == if x / pageSize < |dirty| && dirty[x / pageSize] then memory[x] else file[x])
      && (!(tracked && readable(x / increment * increment)) ==>
            r[x] == if forall y | 0 <= y < |memory| && y / increment == x / increment :: memory[y] == 0 then file[x]
              else memory[x])
  {
    ZeroChunk(memory, increment, x);
  }

  /** The chunk of a byte has a byte that is not zero. */
  lemma ZeroChunk(memory: seq<Byte>, increment: nat, x: nat)
    requires increment > 0 && x < |memory|
    ensures var start := ChunkStart(x, increment);
      NonZero(memory, start, Min(start + increment, |memory|)) <==>
        !(forall y | 0 <= y < |memory| && y / increment == x / increment :: memory[y] == 0)
  {
    var start := ChunkStart(x, increment);
    assert (x / increment + 1) * increment == start + increment;
    forall y: nat ensures y / increment == x / increment <==> start <= y < start + increment {
      PageRange(y, x / increment, x / increment + 1, increment);
    }
  }

  /** Saving by chunks is right if and only if the file is zero wherever a whole chunk is. */
  lemma SavedByChunks(memory: seq<Byte>, file: seq<Byte>, dirty: seq<bool>, pageSize: nat, increment: nat,
      readable: nat -> bool)
    requires pageSize > 0 && increment > 0 && |memory| == |file|
    ensures SavedBytes(memory, file, dirty, pageSize, increment, false, readable) == memory <==>
      forall x | 0 <= x < |memory|
        && (forall y | 0 <= y < |memory| && y / increment == x / increment :: memory[y] == 0) :: file[x] == 0
  {
    hide NonZero, ChunkStart;
    forall x | 0 <= x < |memory| && !Saves(memory, dirty, pageSize, increment, false, readable, x)
      ensures memory[x] == 0
    {
      UnsavedIsZero(memory, dirty, pageSize, increment, false, readable, x);
    }
    forall x | 0 <= x < |memory|
      ensures Saves(memory, dirty, pageSize, increment, false, readable, x) <==>
        !(forall y | 0 <= y < |memory| && y / increment == x / increment :: memory[y] == 0)
    {
      ZeroChunk(memory, increment, x);
    }
    SavedExact(memory, file, dirty, pageSize, increment, false, readable);
  }

  /** A chunk that has become all zeros is not written, and the file keeps what was there: here the second
    * of two chunks, the first being the same in both. */
  lemma ZeroedChunkIsNotSaved()
    ensures var memory, file := seq(16, x => if x < 8 then 1 else 0), seq(16, _ => 1);
      SavedBytes(memory, file, [false, true], 8, 8, false, _ => true) == file != memory
  {
    var memory, file := seq(16, x => if x < 8 then 1 else 0), seq(16, _ => 1);
    assert file[8] != memory[8];
    assert SavedBytes(memory, file, [false, true], 8, 8, false, _ => true) == file;
  }

  /** `load_database_file` */
  method LoadDatabaseFile(memory: array<Byte>, file: array<Byte>, increment: nat)
    requires memory != file && increment > 0 && memory.Length >= file.Length
    modifies memory
    ensures memory[..file.Length] == file[..] && memory[file.Length..] == old(memory[file.Length..])
  {
    var offset := 0;
    while offset != file.Length
      invariant 0 <= offset <= file.Length
      invariant forall x | 0 <= x < memory.Length :: memory[x] == if x < offset then file[x] else old(memory[x])
      decreases file.Length - offset
    {
      var n := Min(increment, file.Length - offset);
      Memcpy(memory, file, offset, n);
      offset := offset + n;
    }
  }
}
