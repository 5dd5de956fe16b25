/** Cutting a file into chunk files and putting it together again. */
module ChunkFiles {
  import opened Options

  /** An input file stream: a read that comes back short clears `good`. */
  class InFile {
    const content: string
    var pos: nat
    var good: bool

    ghost predicate Valid()
      reads this
    {
      pos <= |content|
    }

    constructor (content: string)
      ensures Valid() && this.content == content && pos == 0 && good
    {
      this.content, pos, good := content, 0, true;
    }

    /** `read` and `gcount`: as many bytes as fit, or as are left. */
    method Read(size: nat) returns (data: string)
      requires Valid() && good
      modifies this
      ensures Valid() && old(pos) <= pos
      ensures data == content[old(pos)..pos]
      ensures pos == if old(pos) + size <= |content| then old(pos) + size else |content|
      ensures good == (|data| == size)
    {
      var end := if pos + size <= |content| then pos + size else |content|;
      data := content[pos..end];
      pos, good := end, |data| == size;
    }
  }

  // ---------- split ----------

  /** The chunks of a file: full ones, and a last one with what is left over. */
  function Pieces(data: string, size: nat): seq<string> {
    if data == "" || size == 0 then []
    else if |data| <= size then [data]
    else [data[..size]] + Pieces(data[size..], size)
  }

  /** The chunk files of one directory after chunks 0, 1, ... were written over it. */
  function Stored(files: map<int, string>, pieces: seq<string>): map<int, string> {
    files + map i | 0 <= i < |pieces| :: pieces[i]
  }

  /** The chunk files `<dir>/<fileId>/chunk_<i>` of one directory, by chunk index. */
  class ChunkDir {
    var files: map<int, string>

    constructor ()
      ensures files == map[]
    {
      files := map[];
    }
  }

  /** Returns the number of chunks written, or -1 where the input cannot be opened. */
  method SplitFileIntoChunks(input: Option<string>, dir: ChunkDir, chunkSize: nat) returns (count: int)
    modifies dir
    ensures count == if input.Some? then |Pieces(input.value, chunkSize)| else -1
    ensures dir.files == if input.Some? then Stored(old(dir.files), Pieces(input.value, chunkSize)) else old(dir.files)
  {
    if input.None? {
      return -1;
    }
    var file := new InFile(input.value);
    ghost var written: seq<string> := [];
    ghost var goal := Pieces(input.value, chunkSize);
    count := 0;
    assert file.content[0..] == file.content;
    StoredNothing(dir.files);
    while file.good
      invariant file.Valid() && file.content == input.value
      invariant count == |written| && dir.files == Stored(old(dir.files), written)
      invariant goal == written + Pieces(file.content[file.pos..], chunkSize)
      invariant !file.good ==> file.pos == |file.content|
      decreases file.good, |file.content| - file.pos
    {
      ghost var rest := file.content[file.pos..];
      var data := file.Read(chunkSize);
      assert rest == data + file.content[file.pos..];
      if |data| <= 0 {
        break;
      }
      PiecesStep(rest, data, file.content[file.pos..], chunkSize);
      StoredOneMore(old(dir.files), written, data);
      RegroupOne(written, data, Pieces(file.content[file.pos..], chunkSize));
      dir.files := dir.files[count := data];
      written := written + [data];
      count := count + 1;
    }
    assert goal == written;
  }

  lemma PiecesStep(rest: string, data: string, after: string, size: nat)
    requires rest == data + after
    requires 0 < |data| <= size && (|data| == size || after == "")
    ensures Pieces(rest, size) == [data] + Pieces(after, size)
  {
    if |rest| > size {
      assert rest[..size] == data && rest[size..] == after;
    } else {
      assert after == "" && rest == data;
    }
  }

  lemma RegroupOne(a: seq<string>, x: string, b: seq<string>)
    ensures a + ([x] + b) == (a + [x]) + b
  {
  }

  lemma StoredNothing(files: map<int, string>)
    ensures Stored(files, []) == files
  {
  }

  lemma StoredOneMore(files: map<int, string>, pieces: seq<string>, data: string)
    ensures Stored(files, pieces + [data]) == Stored(files, pieces)[|pieces| := data]
  {
  }

  // ---------- merge ----------

  /** What merging chunks `i` up to `total` appends to the output, and whether all of them were there. */
  function JoinFrom(files: map<int, string>, i: nat, total: int): (r: (bool, string))
    decreases total - i
  {
    if i >= total then (true, "")
    else if i !in files then (false, "")
    else
      var (ok, rest) := JoinFrom(files, i + 1, total);
      (ok, files[i] + rest)
  }

  /** Merges into a fresh output file; a negative count opens none. */
  method MergeChunks(files: map<int, string>, totalChunks: int, bufferSize: nat)
    returns (ok: bool, output: Option<string>)
    requires bufferSize > 0
    ensures totalChunks < 0 ==> !ok && output == None
    ensures totalChunks >= 0 ==> ok == JoinFrom(files, 0, totalChunks).0
                                 && output == Some(JoinFrom(files, 0, totalChunks).1)
  {
    if totalChunks < 0 {
      return false, None;
    }
    var out := "";
    for i := 0 to totalChunks
      invariant JoinFrom(files, 0, totalChunks).0 == JoinFrom(files, i, totalChunks).0
      invariant JoinFrom(files, 0, totalChunks).1 == out + JoinFrom(files, i, totalChunks).1
    {
      if i !in files {
        assert out + "" == out;
        return false, Some(out);
      }
      ghost var before := out;
      var file := new InFile(files[i]);
      while file.good
        invariant file.Valid() && file.content == files[i]
        invariant out == before + file.content[..file.pos]
        invariant !file.good ==> file.pos == |file.content|
        decreases file.good, |file.content| - file.pos
      {
        var data := file.Read(bufferSize);
        if |data| > 0 {
          out := out + data;
        }
      }
      assert file.content[..file.pos] == files[i];
    }
    assert out + "" == out;
    ok, output := true, Some(out);
  }

  // ---------- laws ----------

  function Join(pieces: seq<string>): string {
    if pieces == [] then "" else pieces[0] + Join(pieces[1..])
  }

  /** The shape that a split of `data` into chunks of `size` has to have. */
  ghost predicate IsSplit(pieces: seq<string>, data: string, size: nat) {
    && Join(pieces) == data
    && (forall k :: 0 <= k < |pieces| ==> 0 < |pieces[k]| <= size)
    && (forall k :: 0 <= k < |pieces| - 1 ==> |pieces[k]| == size)
  }

  /** The chunks join up to the file, none is empty, and all but the last are full. */
  lemma {:induction false} SplitShape(data: string, size: nat)
    requires size > 0
    ensures IsSplit(Pieces(data, size), data, size)
  {
    if |data| > size {
      SplitShape(data[size..], size);
      assert data == data[..size] + data[size..];
      assert Pieces(data, size)[1..] == Pieces(data[size..], size);
    } else if data != "" {
      assert Pieces(data, size)[1..] == [];
    }
  }

  /** Only one sequence of chunks has that shape. */
  lemma {:induction false} SplitUnique(pieces: seq<string>, data: string, size: nat)
    requires size > 0 && IsSplit(pieces, data, size)
    ensures pieces == Pieces(data, size)
    decreases |pieces|
  {
    if pieces != [] {
      var rest := pieces[1..];
      assert forall k :: 0 <= k < |rest| ==> rest[k] == pieces[k + 1];
      if rest == [] {
        assert data == pieces[0];
      } else {
        assert Join(rest) == rest[0] + Join(rest[1..]);
        assert data[..size] == pieces[0] && data[size..] == Join(rest);
        SplitUnique(rest, data[size..], size);
      }
      assert pieces == [pieces[0]] + rest;
    }
  }

  /** There are ceil(length / size) chunks. */
  lemma {:induction false} SplitCount(data: string, size: nat)
    requires size > 0
    ensures |Pieces(data, size)| == (|data| + size - 1) / size
  {
    if |data| > size {
      SplitCount(data[size..], size);
      DivideDown(|data| + size - 1, size);
    } else if data != "" {
      DivideDown(|data| + size - 1, size);
      SmallQuotient(|data| - 1, size);
    } else {
      SmallQuotient(size - 1, size);
    }
  }

  lemma DivideDown(n: nat, size: nat)
    requires 0 < size <= n
    ensures n / size == (n - size) / size + 1
  {
    var q, r := (n - size) / size, (n - size) % size;
    assert n == size * (q + 1) + r;
    SameQuotient(n, size, q + 1, r);
  }

  lemma SameQuotient(n: nat, size: nat, q: nat, r: nat)
    requires 0 <= r < size && n == size * q + r
    ensures n / size == q
  {
    var q', r' := n / size, n % size;
    if q' < q {
      assert size * (q - q') == size * q - size * q';
      AtLeastOnce(size, q - q');
    } else if q < q' {
      assert size * (q' - q) == size * q' - size * q;
      AtLeastOnce(size, q' - q);
    }
  }

  lemma AtLeastOnce(size: nat, k: nat)
    requires k > 0
    ensures size * k >= size
  {
  }

  lemma SmallQuotient(n: nat, size: nat)
    requires n < size
    ensures n / size == 0
  {
  }

  /** Merging succeeds exactly when no chunk file below the count is missing. */
  lemma {:induction false} MergeSucceedsIff(files: map<int, string>, i: nat, total: int)
    ensures JoinFrom(files, i, total).0 <==> forall k :: i <= k < total ==> k in files
    decreases total - i
  {
    if i < total && i in files {
      MergeSucceedsIff(files, i + 1, total);
    }
  }

  /** The contents of chunk files `i` up to `n`, in order. */
  function Contents(files: map<int, string>, i: nat, n: nat): seq<string>
    requires i <= n && forall k :: i <= k < n ==> k in files
  {
    seq(n - i, k requires 0 <= k < n - i => files[i + k])
  }

  /** Merging writes the chunk files one after another, up to the first that is missing, whatever stands behind it. */
  lemma {:induction false} MergeIs(files: map<int, string>, i: nat, total: nat) returns (n: nat)
    requires i <= total
    ensures i <= n <= total && (n == total || n !in files) && forall k :: i <= k < n ==> k in files
    ensures JoinFrom(files, i, total) == (n == total, Join(Contents(files, i, n)))
    decreases total - i
  {
    n := i;
    if i < total && i in files {
      n := MergeIs(files, i + 1, total);
      assert Contents(files, i, n)[1..] == Contents(files, i + 1, n);
    }
  }

  lemma {:induction false} JoinStored(files: map<int, string>, pieces: seq<string>, i: nat)
    requires i <= |pieces|
    requires forall k :: i <= k < |pieces| ==> k in files && files[k] == pieces[k]
    ensures JoinFrom(files, i, |pieces|) == (true, Join(pieces[i..]))
    decreases |pieces| - i
  {
    if i < |pieces| {
      JoinStored(files, pieces, i + 1);
      assert pieces[i..][1..] == pieces[i + 1..];
    }
  }

  /** Splitting over any directory and merging the chunks again gives the file back. */
  lemma SplitThenMerge(files: map<int, string>, data: string, size: nat)
    requires size > 0
    ensures JoinFrom(Stored(files, Pieces(data, size)), 0, |Pieces(data, size)|) == (true, data)
  {
    var pieces := Pieces(data, size);
    SplitShape(data, size);
    JoinStored(Stored(files, pieces), pieces, 0);
    assert pieces[0..] == pieces;
  }
}
