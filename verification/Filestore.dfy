/**
 `NativeFilestore` over a model disk. What the operating system decides (whether a call fails,
 how many bytes a read returns) is a parameter of the call.
 */
module Filestore {
  import opened Wrappers
  import opened Reassembly

  datatype ChecksumType = Modular | Crc32 | NullChecksum | OtherChecksum

  datatype FilestoreError =
    | FileDoesNotExist
    | FileAlreadyExists
    | IsNotFile
    | Io
    | ChecksumTypeNotImplemented

  datatype Disk = Disk(files: map<string, seq<U8>>, dirs: set<string>)

  type U32 = x: int | 0 <= x < 0x1_0000_0000

  /** A CRC engine: any fold over bytes with a start value and a final step. */
  datatype Crc = Crc(init: U32, update: (U32, U8) -> U32, finalize: U32 -> U32)

  predicate Exists(d: Disk, path: string) {
    path in d.files || path in d.dirs
  }

  // ------------------------------------------------------ specification

  function Create(d: Disk, path: string, ioFails: bool): (r: (Disk, Option<FilestoreError>))
    ensures r.1.Some? ==> r.0 == d
  {
    if Exists(d, path) then (d, Some(FileAlreadyExists))
    else if ioFails then (d, Some(Io))
    else (d.(files := d.files[path := []]), None)
  }

  /** Errors shared by everything that needs an existing regular file. */
  function NeedFile(d: Disk, path: string, ioFails: bool): Option<FilestoreError> {
    if !Exists(d, path) then Some(FileDoesNotExist)
    else if path !in d.files then Some(IsNotFile)
    else if ioFails then Some(Io)
    else None
  }

  function Truncate(d: Disk, path: string, ioFails: bool): (r: (Disk, Option<FilestoreError>))
    ensures r.1.Some? ==> r.0 == d
  {
    var e := NeedFile(d, path, ioFails);
    if e.Some? then (d, e) else (d.(files := d.files[path := []]), None)
  }

  function Remove(d: Disk, path: string, ioFails: bool): (r: (Disk, Option<FilestoreError>))
    ensures r.1.Some? ==> r.0 == d
  {
    var e := NeedFile(d, path, ioFails);
    if e.Some? then (d, e) else (d.(files := d.files - {path}), None)
  }

  function Write(d: Disk, path: string, offset: nat, buf: seq<U8>, ioFails: bool): (r: (Disk, Option<FilestoreError>))
    ensures r.1.Some? ==> r.0 == d
  {
    var e := NeedFile(d, path, ioFails);
    if e.Some? then (d, e) else (d.(files := d.files[path := WriteAt(d.files[path], offset, buf)]), None)
  }

  /** Which error an operation on an existing file fails with, and which one `create_file`. */
  lemma FilestoreErrorsIff(d: Disk, path: string, offset: nat, buf: seq<U8>, ioFails: bool)
    ensures var e := Truncate(d, path, ioFails).1;
      && e == Remove(d, path, ioFails).1 == Write(d, path, offset, buf, ioFails).1
      && (e == Some(FileDoesNotExist) <==> path !in d.files && path !in d.dirs)
      && (e == Some(IsNotFile) <==> path !in d.files && path in d.dirs)
      && (e == Some(Io) <==> path in d.files && ioFails)
      && (e == None <==> path in d.files && !ioFails)
    ensures var e := Create(d, path, ioFails).1;
      && (e == Some(FileAlreadyExists) <==> path in d.files || path in d.dirs)
      && (e == None <==> path !in d.files && path !in d.dirs && !ioFails)
      && (e != None ==> e == Some(FileAlreadyExists) || e == Some(Io))
  {
  }

  /** Two disks that differ at most in what is stored at `path`. */
  ghost predicate SameElsewhere(d: Disk, d': Disk, path: string) {
    && d'.dirs == d.dirs
    && forall q | q != path :: (q in d'.files <==> q in d.files) && (q in d.files ==> d'.files[q] == d.files[q])
  }

  /**
   What the operations do to the file they name, and that they leave all others alone. A file can be
   created again after it was removed, and truncating a file leaves what creating it does.
   */
  lemma FilestoreLaws(d: Disk, path: string, offset: nat, buf: seq<U8>)
    ensures Create(d, path, false).1.None? ==>
      var d' := Create(d, path, false).0;
      && SameElsewhere(d, d', path) && path in d'.files && d'.files[path] == []
      && Remove(d', path, false) == (d, None) && Truncate(d', path, false) == (d', None)
    ensures path in d.files ==>
      var cut, gone, written :=
        Truncate(d, path, false).0, Remove(d, path, false).0, Write(d, path, offset, buf, false).0;
      && SameElsewhere(d, cut, path) && SameElsewhere(d, gone, path) && SameElsewhere(d, written, path)
      && path !in gone.files && path in cut.files && path in written.files
      && (path !in d.dirs ==> Create(gone, path, false) == (cut, None))
      && |written.files[path]| == (if buf == [] then |d.files[path]| else Max(|d.files[path]|, offset + |buf|))
      && forall i: nat :: At(written.files[path], i) ==
           if offset <= i < offset + |buf| then buf[i - offset] else At(d.files[path], i)
  {
    if Create(d, path, false).1.None? {
      var d' := Create(d, path, false).0;
      assert d'.files - {path} == d.files && d'.files[path := []] == d'.files;
    }
    if path in d.files {
      assert (d.files - {path})[path := []] == d.files[path := []];
    }
  }

  function CrcFold(crc: Crc, acc: U32, bytes: seq<U8>): U32 {
    if bytes == [] then acc else crc.update(CrcFold(crc, acc, bytes[..|bytes| - 1]), bytes[|bytes| - 1])
  }

  function CrcOf(crc: Crc, bytes: seq<U8>): U32 {
    crc.finalize(CrcFold(crc, crc.init, bytes))
  }

  /** The checksum a file should carry, for the two types that read it. */
  function ChecksumOf(crc: Crc, kind: ChecksumType, bytes: seq<U8>): U32
    requires kind == Modular || kind == Crc32
  {
    if kind == Modular then ModularChecksum(bytes) else CrcOf(crc, bytes)
  }

  datatype Verdict = Verdict(matches: bool) | VerifyFailed(error: FilestoreError)

  function Verify(d: Disk, crc: Crc, path: string, kind: ChecksumType, expected: U32, ioFails: bool): Verdict {
    match kind
    case NullChecksum => Verdict(true)
    case OtherChecksum => VerifyFailed(ChecksumTypeNotImplemented)
    case _ =>
      if path !in d.files || ioFails then VerifyFailed(Io)
      else Verdict(ChecksumOf(crc, kind, d.files[path]) == expected)
  }

  lemma {:induction false} CrcFoldConcat(crc: Crc, acc: U32, a: seq<U8>, b: seq<U8>)
    ensures CrcFold(crc, acc, a + b) == CrcFold(crc, CrcFold(crc, acc, a), b)
  {
    if b == [] {
      assert a + b == a;
    } else {
      assert (a + b)[..|a + b| - 1] == a + b[..|b| - 1];
      CrcFoldConcat(crc, acc, a, b[..|b| - 1]);
    }
  }

  // ------------------------------------------------- reading in pieces

  /** How many bytes a read into a buffer of `room` bytes returns when `left` are left. */
  function Returned(wanted: nat, room: nat, left: nat): (n: nat)
    requires room > 0
    ensures n <= room && n <= left && (n == 0 <==> left == 0)
  {
    var most := if room < left then room else left;
    if wanted == 0 && most > 0 then 1 else if wanted < most then wanted else most
  }

  /** A big-endian word, padded with zeros on the right. */
  function Word(chunk: seq<U8>): nat {
    At(chunk, 0) as nat * 0x100_0000 + At(chunk, 1) as nat * 0x1_0000 + At(chunk, 2) as nat * 0x100 +
      At(chunk, 3) as nat
  }

  /** The sum of words over the chunks that the reads from `pos` on return. */
  function WordSum(f: seq<U8>, readLen: nat -> nat, pos: nat): nat
    requires pos <= |f|
    decreases |f| - pos
  {
    var n := Returned(readLen(pos), 4, |f| - pos);
    if n == 0 then 0 else Word(f[pos..pos + n]) + WordSum(f, readLen, pos + n)
  }

  /** Every read at a word boundary fills the four bytes of the buffer, if there are as many left. */
  ghost predicate FullReads(readLen: nat -> nat) {
    forall pos: nat | pos % 4 == 0 :: readLen(pos) >= 4
  }

  lemma WeightsOfAWord(pos: nat)
    requires pos % 4 == 0
    ensures Weight(pos) == 0x100_0000 && Weight(pos + 1) == 0x1_0000 && Weight(pos + 2) == 0x100 && Weight(pos + 3) == 1
  {
  }

  lemma WordIsWeighted(f: seq<U8>, pos: nat)
    requires pos % 4 == 0 && pos <= |f|
    ensures var n := Returned(4, 4, |f| - pos);
      WeightedTo(f, pos + 4) == WeightedTo(f, pos) + Word(f[pos..pos + n])
  {
    hide Weight;
    WeightsOfAWord(pos);
    var c := f[pos..pos + Returned(4, 4, |f| - pos)];
    assert forall i | 0 <= i < 4 :: At(c, i) == At(f, pos + i);
    assert WeightedTo(f, pos + 1) == WeightedTo(f, pos) + At(f, pos) as nat * Weight(pos);
    assert WeightedTo(f, pos + 2) == WeightedTo(f, pos + 1) + At(f, pos + 1) as nat * Weight(pos + 1);
    assert WeightedTo(f, pos + 3) == WeightedTo(f, pos + 2) + At(f, pos + 2) as nat * Weight(pos + 2);
    assert WeightedTo(f, pos + 4) == WeightedTo(f, pos + 3) + At(f, pos + 3) as nat * Weight(pos + 3);
  }

  lemma WordStep(f: seq<U8>, readLen: nat -> nat, pos: nat)
    requires pos <= |f|
    ensures var n := Returned(readLen(pos), 4, |f| - pos);
      WordSum(f, readLen, pos) == if n == 0 then 0 else Word(f[pos..pos + n]) + WordSum(f, readLen, pos + n)
  {
  }

  lemma NothingWeighed(f: seq<U8>)
    ensures WeightedTo(f, 0) == 0
  {
  }

  /** As long as reads are full, the words so far are the positional sum so far. */
  lemma {:induction false} WordsToBoundary(f: seq<U8>, readLen: nat -> nat, pos: nat)
    requires pos <= |f| && pos % 4 == 0 && forall p: nat | p < pos && p % 4 == 0 :: readLen(p) >= 4
    ensures WordSum(f, readLen, 0) == WeightedTo(f, pos) + WordSum(f, readLen, pos)
    decreases pos
  {
    hide WordSum, Word, WeightedTo;
    if pos == 0 {
      NothingWeighed(f);
    } else {
      WordsToBoundary(f, readLen, pos - 4);
      WordIsWeighted(f, pos - 4);
      WordStep(f, readLen, pos - 4);
      assert readLen(pos - 4) >= 4;
    }
  }

  /** Reading word by word gives the positional sum of the whole file. */
  lemma WordSumIsModular(f: seq<U8>, readLen: nat -> nat)
    requires FullReads(readLen)
    ensures WordSum(f, readLen, 0) == WeightedTo(f, |f|)
  {
    var pos := |f| - |f| % 4;
    WordsToBoundary(f, readLen, pos);
    if pos < |f| {
      WordIsWeighted(f, pos);
      WeightedPastEnd(f, pos + 4);
      assert readLen(pos) >= 4;
      assert WordSum(f, readLen, |f|) == 0;
    }
  }

  /** A file of zeros up to its last byte, which is one and ends a word. */
  function LoneByte(p: nat): seq<U8> {
    seq(p + 3, _ => 0) + [1]
  }

  lemma {:induction false} ZerosWeighNothing(p: nat, n: nat)
    requires n <= p + 3
    ensures WeightedTo(LoneByte(p), n) == 0
  {
    if n > 0 {
      ZerosWeighNothing(p, n - 1);
    }
  }

  /** Once a read is short, the lone byte is no longer the last of its word. */
  lemma {:induction false} LoneByteMisplaced(p: nat, readLen: nat -> nat, pos: nat)
    requires p < pos <= p + 3
    ensures WordSum(LoneByte(p), readLen, pos) in {0x100_0000, 0x1_0000, 0x100}
    decreases p + 4 - pos
  {
    var f := LoneByte(p);
    var n := Returned(readLen(pos), 4, |f| - pos);
    var chunk := f[pos..pos + n];
    if pos + n == |f| {
      assert WordSum(f, readLen, |f|) == 0;
      assert chunk[n - 1] == 1 && forall i | 0 <= i < n - 1 :: chunk[i] == 0;
    } else {
      assert forall i | 0 <= i < n :: chunk[i] == 0;
      LoneByteMisplaced(p, readLen, pos + n);
    }
  }

  /** The streaming sum is the checksum of every file. */
  ghost predicate AlwaysPositional(readLen: nat -> nat) {
    forall f: seq<U8> :: WordSum(f, readLen, 0) % 0x1_0000_0000 == ModularChecksum(f)
  }

  /** Exactly when it is: a short read at a word boundary shifts the place values of what follows. */
  lemma PositionalIffFullReads(readLen: nat -> nat)
    ensures AlwaysPositional(readLen) <==> FullReads(readLen)
  {
    hide WordSum, LoneByte;
    if FullReads(readLen) {
      forall f: seq<U8> ensures WordSum(f, readLen, 0) % 0x1_0000_0000 == ModularChecksum(f) {
        WordSumIsModular(f, readLen);
      }
    } else {
      var p := FirstShortRead(readLen);
      LoneByteCounts(p, readLen);
      LoneByteWeighsOne(p);
      assert WordSum(LoneByte(p), readLen, 0) % 0x1_0000_0000 != ModularChecksum(LoneByte(p));
    }
  }

  lemma LoneByteWeighsOne(p: nat)
    requires p % 4 == 0
    ensures ModularChecksum(LoneByte(p)) == 1
  {
    ZerosWeighNothing(p, p + 3);
    assert WeightedTo(LoneByte(p), p + 4) == 1;
  }

  /** What the streaming sum makes of the lone byte when the first short read is in its word. */
  lemma LoneByteCounts(p: nat, readLen: nat -> nat)
    requires p % 4 == 0 && readLen(p) < 4 && forall q: nat | q < p && q % 4 == 0 :: readLen(q) >= 4
    ensures WordSum(LoneByte(p), readLen, 0) in {0x100_0000, 0x1_0000, 0x100}
  {
    hide WordSum, WeightedTo;
    var f := LoneByte(p);
    WordsToBoundary(f, readLen, p);
    ZerosWeighNothing(p, p);
    var n := Returned(readLen(p), 4, 4);
    var chunk := f[p..p + n];
    assert forall i | 0 <= i < n :: chunk[i] == 0;
    LoneByteMisplaced(p, readLen, p + n);
    WordStep(f, readLen, p);
  }

  /** The first short read at a word boundary. */
  lemma FirstShortRead(readLen: nat -> nat) returns (p: nat)
    requires !FullReads(readLen)
    ensures p % 4 == 0 && readLen(p) < 4 && forall q: nat | q < p && q % 4 == 0 :: readLen(q) >= 4
  {
    var bound: nat :| bound % 4 == 0 && readLen(bound) < 4;
    p := 0;
    while readLen(p) >= 4
      invariant p <= bound && p % 4 == 0
      invariant forall q: nat | q < p && q % 4 == 0 :: readLen(q) >= 4
      decreases bound - p
    {
      p := p + 4;
    }
  }

  lemma WrapThenAdd(a: nat, b: nat)
    ensures (a % 0x1_0000_0000 + b) % 0x1_0000_0000 == (a + b) % 0x1_0000_0000
  {
    var q := a / 0x1_0000_0000;
    assert a + b == a % 0x1_0000_0000 + b + 0x1_0000_0000 * q;
  }

  // ------------------------------------------------------------ the class

  class NativeFilestore {
    var files: map<string, seq<U8>>
    var dirs: set<string>

    ghost function View(): Disk
      reads this
    {
      Disk(files, dirs)
    }

    method CreateFile(path: string, ioFails: bool) returns (e: Option<FilestoreError>)
      modifies this
      ensures (View(), e) == Create(old(View()), path, ioFails)
    {
      if path in files || path in dirs {
        return Some(FileAlreadyExists);
      }
      if ioFails {
        return Some(Io);
      }
      files := files[path := []];
      return None;
    }

    method TruncateFile(path: string, ioFails: bool) returns (e: Option<FilestoreError>)
      modifies this
      ensures (View(), e) == Truncate(old(View()), path, ioFails)
    {
      if path !in files && path !in dirs {
        return Some(FileDoesNotExist);
      }
      if path !in files {
        return Some(IsNotFile);
      }
      if ioFails {
        return Some(Io);
      }
      files := files[path := []];
      return None;
    }

    method RemoveFile(path: string, ioFails: bool) returns (e: Option<FilestoreError>)
      modifies this
      ensures (View(), e) == Remove(old(View()), path, ioFails)
    {
      if path !in files && path !in dirs {
        return Some(FileDoesNotExist);
      }
      if path !in files {
        return Some(IsNotFile);
      }
      if ioFails {
        return Some(Io);
      }
      files := files - {path};
      return None;
    }

    method WriteData(path: string, offset: nat, buf: seq<U8>, ioFails: bool) returns (e: Option<FilestoreError>)
      modifies this
      ensures (View(), e) == Write(old(View()), path, offset, buf, ioFails)
    {
      if path !in files && path !in dirs {
        return Some(FileDoesNotExist);
      }
      if path !in files {
        return Some(IsNotFile);
      }
      if ioFails {
        return Some(Io);
      }
      files := files[path := WriteAt(files[path], offset, buf)];
      return None;
    }

    /** The streaming loop: four bytes at a time, padded with zeros, wrapping addition. */
    method CalcModularChecksum(path: string, readLen: nat -> nat) returns (sum: U32)
      requires path in files
      ensures sum == WordSum(files[path], readLen, 0) % 0x1_0000_0000
      ensures FullReads(readLen) ==> sum == ModularChecksum(files[path])
    {
      hide WordSum, Word, WeightedTo;
      var f := files[path];
      var pos := 0;
      sum := 0;
      ghost var total: nat := 0;
      while true
        invariant pos <= |f|
        invariant sum == total % 0x1_0000_0000
        invariant total + WordSum(f, readLen, pos) == WordSum(f, readLen, 0)
        decreases |f| - pos
      {
        var n := Returned(readLen(pos), 4, |f| - pos);
        WordStep(f, readLen, pos);
        if n == 0 {
          break;
        }
        var word := Word(f[pos..pos + n]);
        WrapThenAdd(total, word);
        total := total + word;
        sum := (sum + word) % 0x1_0000_0000;
        pos := pos + n;
      }
      if FullReads(readLen) {
        WordSumIsModular(f, readLen);
      }
    }

    /** The digest loop: however the file is cut into reads, the digest is that of the whole. */
    method CalcCrc(crc: Crc, path: string, bufLen: nat, readLen: nat -> nat) returns (sum: U32)
      requires path in files
      ensures sum == CrcOf(crc, if bufLen > 0 then files[path] else [])
    {
      if bufLen == 0 {
        return crc.finalize(crc.init);
      }
      var f := files[path];
      var pos := 0;
      var digest := crc.init;
      while true
        invariant pos <= |f|
        invariant digest == CrcFold(crc, crc.init, f[..pos])
        decreases |f| - pos
      {
        var n := Returned(readLen(pos), bufLen, |f| - pos);
        if n == 0 {
          break;
        }
        CrcFoldConcat(crc, crc.init, f[..pos], f[pos..pos + n]);
        assert f[..pos] + f[pos..pos + n] == f[..pos + n];
        digest := UpdateDigest(crc, digest, f[pos..pos + n]);
        pos := pos + n;
      }
      assert f[..pos] == f;
      sum := crc.finalize(digest);
    }

    method UpdateDigest(crc: Crc, digest: U32, chunk: seq<U8>) returns (r: U32)
      ensures r == CrcFold(crc, digest, chunk)
    {
      r := digest;
      for i := 0 to |chunk|
        invariant r == CrcFold(crc, digest, chunk[..i])
      {
        assert chunk[..i + 1][..i] == chunk[..i];
        r := crc.update(r, chunk[i]);
      }
      assert chunk[..|chunk|] == chunk;
    }

    method ChecksumVerify(crc: Crc, path: string, kind: ChecksumType, expected: U32, bufLen: nat,
                          readLen: nat -> nat, ioFails: bool) returns (v: Verdict)
      ensures bufLen > 0 && FullReads(readLen) ==> v == Verify(View(), crc, path, kind, expected, ioFails)
      ensures kind == Crc32 && bufLen > 0 ==> v == Verify(View(), crc, path, kind, expected, ioFails)
      ensures kind == Modular && path in files && !ioFails ==>
        v == Verdict(WordSum(files[path], readLen, 0) % 0x1_0000_0000 == expected)
      ensures kind == Crc32 && bufLen == 0 && path in files && !ioFails ==> v == Verdict(CrcOf(crc, []) == expected)
    {
      match kind {
        case Modular =>
          if path !in files || ioFails {
            return VerifyFailed(Io);
          }
          var sum := CalcModularChecksum(path, readLen);
          return Verdict(sum == expected);
        case Crc32 =>
          if path !in files || ioFails {
            return VerifyFailed(Io);
          }
          var sum := CalcCrc(crc, path, bufLen, readLen);
          return Verdict(sum == expected);
        case NullChecksum => return Verdict(true);
        case OtherChecksum => return VerifyFailed(ChecksumTypeNotImplemented);
      }
    }
  }
}
