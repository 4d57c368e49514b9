/**
 * The chunked file of src/tools/FSBigFile.cpp: one logical file kept in several files. Reading, seeking and telling
 * work on the concatenation of the chunks, with exact conditions for what they refuse; appending extends it by the
 * buffer and keeps every chunk within the size limit.
 */
module ChunkedFile {
  const RC_BF_EOF := -1000
  const RC_BF_READ_ERROR := -1005
  const RC_BF_FILE_CLOSED := -1009
  const RC_BF_WRITE_ONLY := -1011
  const RC_BF_BUFFER_TOO_LONG := -1012
  const RC_BF_INVALID_PARAMETER := -1013

  // ---------------------------------------------------------------- the logical file

  /** The first n chunks, one after the other. */
  function Join(chunks: seq<string>, n: nat): string
    requires n <= |chunks|
  {
    if n == 0 then "" else Join(chunks, n - 1) + chunks[n - 1]
  }

  function Before(chunks: seq<string>, n: nat): (b: nat)
    requires n <= |chunks|
    ensures b == |Join(chunks, n)|
  {
    if n == 0 then 0 else Before(chunks, n - 1) + |chunks[n - 1]|
  }

  function Contents(chunks: seq<string>): string { Join(chunks, |chunks|) }

  lemma {:induction false} JoinPrefix(chunks: seq<string>, i: nat, n: nat)
    requires i <= n <= |chunks|
    ensures Join(chunks, i) <= Join(chunks, n)
    decreases n
  {
    if i < n { JoinPrefix(chunks, i, n - 1); }
  }

  /** A place inside chunk i, seen in the whole. */
  lemma InChunk(chunks: seq<string>, i: nat, pos: nat, k: nat)
    requires i < |chunks| && pos <= k <= |chunks[i]|
    ensures Before(chunks, i) + k <= |Contents(chunks)|
    ensures Contents(chunks)[Before(chunks, i) + pos..Before(chunks, i) + k] == chunks[i][pos..k]
  {
    hide Join, Contents;
    JoinPrefix(chunks, i + 1, |chunks|);
    JoinStep(chunks, i);
    var h, c, s := Join(chunks, i), chunks[i], Contents(chunks);
    SliceTail(h, c, pos, k);
    assert s[..|h + c|] == h + c;
    SlicePrefix(s, |h + c|, |h| + pos, |h| + k);
  }

  lemma JoinStep(chunks: seq<string>, i: nat)
    requires i < |chunks|
    ensures Join(chunks, i + 1) == Join(chunks, i) + chunks[i] && Contents(chunks) == Join(chunks, |chunks|)
    ensures Before(chunks, i) == |Join(chunks, i)|
  {
  }

  lemma SliceTail(h: string, c: string, pos: nat, k: nat)
    requires pos <= k <= |c|
    ensures (h + c)[|h| + pos..|h| + k] == c[pos..k]
  {
  }

  lemma SlicePrefix(s: string, n: nat, a: nat, b: nat)
    requires a <= b <= n <= |s|
    ensures s[..n][a..b] == s[a..b]
  {
  }

  lemma BeforeGrows(chunks: seq<string>, i: nat, n: nat)
    requires i <= n <= |chunks|
    ensures Before(chunks, i) <= Before(chunks, n)
  {
    JoinPrefix(chunks, i, n);
  }

  datatype Whence = SEEK_SET | SEEK_CUR | SEEK_END

  function Min(a: int, b: int): int { if a < b then a else b }

  class FSBigFile {
    var bOpen: bool
    const mode: char
    var file: seq<string>
    var file_size: seq<nat>
    const max_file_size: nat
    var file_num: nat
    /** Where cur_file is in its chunk. */
    var at: nat

    ghost predicate Valid()
      reads this
    {
      && (mode == 'r' || mode == 'a')
      && |file| == |file_size| > file_num && at <= |file[file_num]|
      && forall i :: 0 <= i < |file| ==> file_size[i] == |file[i]|
    }

    /** The logical position. */
    ghost function Pos(): nat
      requires Valid()
      reads this
    {
      Before(file, file_num) + at
    }

    /** Opening an existing chunk list. */
    constructor (mode: char, chunks: seq<string>, max_file_size: nat)
      requires (mode == 'r' || mode == 'a') && chunks != []
      ensures Valid() && bOpen && file == chunks && this.mode == mode && this.max_file_size == max_file_size
      ensures mode == 'r' ==> Pos() == 0
    {
      bOpen, this.mode, file, this.max_file_size := true, mode, chunks, max_file_size;
      file_size := seq(|chunks|, i requires 0 <= i < |chunks| => |chunks[i]|);
      file_num := if mode == 'a' then |chunks| - 1 else 0;
      at := if mode == 'a' then |chunks[|chunks| - 1]| else 0;
    }

    /** fread of up to size bytes from the current chunk. */
    method ReadBuf(size: nat) returns (rc: int, buf: string)
      requires Valid()
      modifies this`at
      ensures Valid() && at == old(at) + |buf| && buf == file[file_num][old(at)..at]
      ensures |buf| == Min(size, |file[file_num]| - old(at))
      ensures rc == if size > 0 && buf == "" then RC_BF_READ_ERROR else |buf|
    {
      var n := Min(size, |file[file_num]| - at);
      buf := file[file_num][at..at + n];
      at := at + n;
      rc := if size > 0 && n == 0 then RC_BF_READ_ERROR else n;
    }

    method SetCurrent(n: nat)
      requires Valid() && n < |file|
      modifies this`file_num, this`at
      ensures Valid() && file_num == n && at == 0
    {
      file_num := n;
      at := 0;
    }

    method Tell() returns (pos: int)
      requires Valid()
      ensures pos == if bOpen then Pos() else RC_BF_FILE_CLOSED
    {
      if !bOpen {
        return RC_BF_FILE_CLOSED;
      }
      pos := at;
      for i := 0 to file_num
        invariant pos == at + Before(file, i)
      {
        pos := pos + file_size[i];
      }
    }

    /** read; data is what it puts into the buffer and counts in size. */
    method Read(size: nat) returns (rc: int, data: string)
      requires Valid()
      modifies this`file_num, this`at
      ensures Valid()
      ensures !bOpen ==> rc == RC_BF_FILE_CLOSED
      ensures bOpen && mode != 'r' ==> rc == RC_BF_WRITE_ONLY
      ensures bOpen && mode == 'r' && size > max_file_size ==> rc == RC_BF_BUFFER_TOO_LONG
      ensures bOpen && mode == 'r' && size <= max_file_size ==>
                && (rc == RC_BF_EOF <==> old(file_num) == |file| - 1 && old(at) == |file[old(file_num)]|)
                && (rc == RC_BF_READ_ERROR <==>
                      old(file_num) < |file| - 1 && size > |file[old(file_num)]| - old(at) && file[old(file_num) + 1] == "")
                && (rc == 0 || rc == RC_BF_EOF || rc == RC_BF_READ_ERROR)
      ensures rc == 0 ==>
                && Pos() == old(Pos()) + |data| <= |Contents(file)|
                && data == Contents(file)[old(Pos())..Pos()]
                && |data| == Min(size, Before(file, Min(old(file_num) + 2, |file|)) - old(Pos()))
      ensures rc != 0 && rc != RC_BF_READ_ERROR ==> Pos() == old(Pos())
      ensures rc == RC_BF_READ_ERROR ==> Pos() == Before(file, old(file_num) + 1)
    {
      hide Join, Contents, Before;
      data := "";
      if !bOpen {
        return RC_BF_FILE_CLOSED, data;
      }
      if mode != 'r' {
        return RC_BF_WRITE_ONLY, data;
      }
      if size > max_file_size {
        return RC_BF_BUFFER_TOO_LONG, data;
      }
      var size1 := file_size[file_num] - at;
      if size1 == 0 && file_num == |file| - 1 {
        return RC_BF_EOF, data;
      }
      if size1 >= size || file_num == |file| - 1 {
        rc, data := ReadWithin(size);
      } else {
        rc, data := ReadAcross(size, size1);
      }
    }

    /** A read that does not span two chunks. */
    method ReadWithin(size: nat) returns (rc: int, data: string)
      requires Valid() && (at < |file[file_num]| || size == 0)
      requires |file[file_num]| - at >= size || file_num == |file| - 1
      modifies this`at
      ensures Valid() && rc == 0
      ensures Pos() == old(Pos()) + |data| <= |Contents(file)| && data == Contents(file)[old(Pos())..Pos()]
      ensures |data| == Min(size, Before(file, Min(file_num + 2, |file|)) - old(Pos()))
    {
      hide Join, Contents, Before;
      ghost var t := at;
      rc, data := ReadBuf(size);
      InChunk(file, file_num, t, t + |data|);
      Ends(file, file_num);
      if rc < 0 {
        return;
      }
      rc := 0;
    }

    /** WRITE_BUF: buf goes to the end of the last chunk. */
    method WriteBuf(buf: string)
      requires Valid() && file_num == |file| - 1
      modifies this`file, this`file_size, this`at
      ensures Valid() && file == old(file)[file_num := old(file)[file_num] + buf]
      ensures Contents(file) == Contents(old(file)) + buf
    {
      hide Join, Contents, Before;
      JoinLast(file, buf);
      file := file[file_num := file[file_num] + buf];
      file_size := file_size[file_num := file_size[file_num] + |buf|];
      at := file_size[file_num];
    }

    /** A read that takes the rest of a chunk and goes on in the next one. */
    method ReadAcross(size: nat, size1: nat) returns (rc: int, data: string)
      requires Valid() && size1 == |file[file_num]| - at < size && file_num < |file| - 1
      modifies this`file_num, this`at
      ensures Valid()
      ensures rc == if file[old(file_num) + 1] == "" then RC_BF_READ_ERROR else 0
      ensures rc == RC_BF_READ_ERROR ==> Pos() == Before(file, old(file_num) + 1)
      ensures rc == 0 ==>
                && Pos() == old(Pos()) + |data| <= |Contents(file)| && data == Contents(file)[old(Pos())..Pos()]
                && |data| == Min(size, Before(file, Min(old(file_num) + 2, |file|)) - old(Pos()))
    {
      hide Join, Contents, Before;
      ghost var t, f := at, file_num;
      var more;
      rc, data := ReadBuf(size1);
      SetCurrent(file_num + 1);
      rc, more := ReadBuf(size - size1);
      if rc < 0 {
        return;
      }
      Across(file, f, t, size, more);
      return 0, data + more;
    }

    /** The logical position a seek asks for. */
    ghost function Target(pos: int, whence: Whence): int
      requires Valid()
      reads this
    {
      match whence
      case SEEK_SET => pos
      case SEEK_CUR => Pos() + pos
      case SEEK_END => |Contents(file)| + pos
    }

    /** Which seeks succeed: forward only to a byte that is there, backward to any place, also the end. */
    ghost predicate Seekable(pos: int, whence: Whence)
      requires Valid()
      reads this
    {
      match whence
      case SEEK_SET => 0 <= pos < |Contents(file)|
      case SEEK_CUR => pos == 0 || (pos > 0 && Pos() + pos < |Contents(file)|) || (pos < 0 && Pos() + pos >= 0)
      case SEEK_END => pos <= 0 && |Contents(file)| + pos >= 0
    }

    /** seek */
    method Seek(pos: int, whence: Whence) returns (rc: int)
      requires Valid() && mode == 'r'
      modifies this`file_num, this`at
      ensures Valid()
      ensures !bOpen ==> rc == RC_BF_FILE_CLOSED
      ensures bOpen ==> rc == if old(Seekable(pos, whence)) then 0 else RC_BF_INVALID_PARAMETER
      ensures Pos() == if rc == 0 then old(Target(pos, whence)) else old(Pos())
    {
      hide Join, Contents, Before;
      if !bOpen {
        return RC_BF_FILE_CLOSED;
      }
      Ends(file, file_num);
      Starts(file);
      match whence
      case SEEK_SET =>
        if pos < 0 {
          return RC_BF_INVALID_PARAMETER;
        }
        rc := SeekForward(pos, 0);
      case SEEK_END =>
        if pos > 0 {
          return RC_BF_INVALID_PARAMETER;
        }
        rc := SeekBackward(pos, |file| - 1);
      case SEEK_CUR =>
        if pos == 0 {
          return 0;
        }
        if pos > 0 {
          if pos + at < file_size[file_num] {
            InChunk(file, file_num, at + pos, at + pos);
            at := at + pos;
            return 0;
          }
          rc := SeekForward(pos - (file_size[file_num] - at), file_num + 1);
        } else {
          if pos + at >= 0 {
            at := at + pos;
            return 0;
          }
          rc := SeekBackward(pos + at, file_num - 1);
        }
    }

    /** The forward loop: p counts from the beginning of chunk i. */
    method SeekForward(pos: int, from: nat) returns (rc: int)
      requires Valid() && pos >= 0 && from <= |file|
      modifies this`file_num, this`at
      ensures Valid()
      ensures rc == if Before(file, from) + pos < |Contents(file)| then 0 else RC_BF_INVALID_PARAMETER
      ensures Pos() == if rc == 0 then Before(file, from) + pos else old(Pos())
    {
      hide Join, Contents, Before;
      var p := pos;
      Starts(file);
      for i := from to |file_size|
        invariant p >= 0 && Before(file, i) + p == Before(file, from) + pos
        invariant file_num == old(file_num) && at == old(at)
      {
        Ends(file, i);
        if p < file_size[i] {
          SetCurrent(i);
          at := p;
          return 0;
        }
        p := p - file_size[i];
      }
      return RC_BF_INVALID_PARAMETER;
    }

    /** The backward loop: p counts from the end of chunk i, down from it. */
    method SeekBackward(pos: int, from: int) returns (rc: int)
      requires Valid() && pos <= 0 && -1 <= from < |file|
      modifies this`file_num, this`at
      ensures Valid()
      ensures rc == if Before(file, from + 1) + pos >= 0 && from >= 0 then 0 else RC_BF_INVALID_PARAMETER
      ensures Pos() == if rc == 0 then Before(file, from + 1) + pos else old(Pos())
    {
      hide Join, Contents, Before;
      var p := pos;
      var i := from;
      Starts(file);
      while i >= 0
        invariant -1 <= i <= from && p <= 0 && Before(file, i + 1) + p == Before(file, from + 1) + pos
        invariant i < from ==> p < 0
        invariant file_num == old(file_num) && at == old(at)
        decreases i
      {
        Ends(file, i);
        if p + file_size[i] >= 0 {
          SetCurrent(i);
          at := file_size[i] + p;
          return 0;
        }
        p := p + file_size[i];
        i := i - 1;
      }
      return RC_BF_INVALID_PARAMETER;
    }

    /** add_chunk */
    method AddChunk()
      requires Valid()
      modifies this`file, this`file_size
      ensures Valid() && file == old(file) + [""] && Contents(file) == Contents(old(file))
    {
      hide Join, Contents, Before;
      JoinMore(file, "");
      file := file + [""];
      file_size := file_size + [0];
    }

    /** write in append mode. */
    method Append(buf: string) returns (rc: int)
      requires Valid() && mode == 'a'
      modifies this`file, this`file_size, this`file_num, this`at
      ensures Valid()
      ensures rc == if !bOpen then RC_BF_FILE_CLOSED else if |buf| > max_file_size then RC_BF_BUFFER_TOO_LONG else 0
      ensures Contents(file) == if rc == 0 then Contents(old(file)) + buf else Contents(old(file))
      ensures old(Small()) ==> Small()
      ensures |file| == |old(file)| + if rc == 0 && |old(file)[|old(file)| - 1]| + |buf| > max_file_size then 1 else 0
      ensures forall i :: 0 <= i < |old(file)| - 1 ==> file[i] == old(file)[i]
    {
      hide Join, Contents, Before;
      if !bOpen {
        return RC_BF_FILE_CLOSED;
      }
      if |buf| > max_file_size {
        return RC_BF_BUFFER_TOO_LONG;
      }
      var last_file := |file| - 1;
      if file_num != last_file {
        SetCurrent(last_file);
      }
      if file_size[file_num] + |buf| > max_file_size {
        AddChunk();
        SetCurrent(file_num + 1);
      }
      WriteBuf(buf);
      rc := 0;
    }

    /** No chunk is larger than the limit. */
    ghost predicate Small()
      reads this
    {
      forall i :: 0 <= i < |file| ==> |file[i]| <= max_file_size
    }
  }

  /** The rest of a chunk and the start of the next one are one slice of the contents. */
  lemma Across(chunks: seq<string>, f: nat, t: nat, size: nat, more: string)
    requires f + 1 < |chunks| && t <= |chunks[f]| && |chunks[f]| - t < size
    requires |more| == Min(size - (|chunks[f]| - t), |chunks[f + 1]|) && more == chunks[f + 1][0..|more|]
    ensures var data := chunks[f][t..|chunks[f]|] + more;
            var p := Before(chunks, f) + t;
            && p + |data| == Before(chunks, f + 1) + |more| <= |Contents(chunks)|
            && data == Contents(chunks)[p..p + |data|]
            && |data| == Min(size, Before(chunks, Min(f + 2, |chunks|)) - p)
  {
    hide Join, Contents, Before;
    InChunk(chunks, f, t, |chunks[f]|);
    InChunk(chunks, f + 1, 0, |more|);
    Ends(chunks, f);
    Ends(chunks, f + 1);
    TwoSlices(Contents(chunks), Before(chunks, f) + t, Before(chunks, f + 1), Before(chunks, f + 1) + |more|);
  }

  lemma Starts(chunks: seq<string>)
    ensures Before(chunks, 0) == 0 && Before(chunks, |chunks|) == |Contents(chunks)|
    ensures chunks != [] ==> Before(chunks, |chunks|) == Before(chunks, |chunks| - 1) + |chunks[|chunks| - 1]|
  {
  }

  lemma {:induction false} JoinSame(a: seq<string>, b: seq<string>, n: nat)
    requires n <= |a| && n <= |b| && forall i :: 0 <= i < n ==> a[i] == b[i]
    ensures Join(a, n) == Join(b, n)
  {
    if n > 0 { JoinSame(a, b, n - 1); }
  }

  lemma JoinMore(chunks: seq<string>, c: string)
    ensures Contents(chunks + [c]) == Contents(chunks) + c
  {
    JoinSame(chunks, chunks + [c], |chunks|);
  }

  lemma JoinLast(chunks: seq<string>, buf: string)
    requires chunks != []
    ensures var n := |chunks| - 1; Contents(chunks[n := chunks[n] + buf]) == Contents(chunks) + buf
  {
    var n := |chunks| - 1;
    JoinSame(chunks, chunks[n := chunks[n] + buf], n);
  }

  lemma Ends(chunks: seq<string>, f: nat)
    requires f < |chunks|
    ensures Before(chunks, f + 1) == Before(chunks, f) + |chunks[f]|
    ensures Before(chunks, f + 1) <= Before(chunks, Min(f + 2, |chunks|)) <= |Contents(chunks)|
    ensures f + 2 <= |chunks| ==> Before(chunks, f + 2) == Before(chunks, f + 1) + |chunks[f + 1]|
  {
    BeforeGrows(chunks, f + 1, Min(f + 2, |chunks|));
    BeforeGrows(chunks, Min(f + 2, |chunks|), |chunks|);
  }

  lemma TwoSlices(s: string, a: nat, b: nat, c: nat)
    requires a <= b <= c <= |s|
    ensures s[a..b] + s[b..c] == s[a..c]
  {
  }
}
