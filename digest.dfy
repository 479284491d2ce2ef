/**
 * get_file_md5_sum: the archive is read in binary mode, 512 bytes at a
 * time, and every chunk is fed to an MD5 hasher until a read comes back
 * empty. The two copies of the function are the same text, so the loop is
 * modelled once. MD5 itself is a parameter: the model only says which
 * bytes reach it and in which order.
 */
module Digest {
  import opened Common

  /** The size passed to f.read */
  const ReadSize: nat := 512

  /**
   * f.read(512) on a regular file whose offset is `pos`: the next bytes of
   * the file, 512 of them unless fewer are left, and empty only at the end.
   */
  function Read(file: seq<byte>, pos: nat): (chunk: seq<byte>)
    requires pos <= |file|
    ensures pos + |chunk| <= |file| && chunk == file[pos..pos + |chunk|]
    ensures |chunk| == ReadSize || pos + |chunk| == |file|
    ensures |chunk| <= ReadSize
  {
    if |file| - pos <= ReadSize then file[pos..] else file[pos..pos + ReadSize]
  }

  /** The chunks a file splits into when read ReadSize bytes at a time. */
  function Chunks(s: seq<byte>): seq<seq<byte>>
    decreases |s|
  {
    if s == [] then []
    else if |s| <= ReadSize then [s]
    else [s[..ReadSize]] + Chunks(s[ReadSize..])
  }

  /** The bytes a list of chunks holds, in order. */
  function Flatten(chunks: seq<seq<byte>>): seq<byte>
  {
    if chunks == [] then [] else chunks[0] + Flatten(chunks[1..])
  }

  /** The chunks put back together are the whole file. */
  lemma {:induction false} ChunksCoverFile(s: seq<byte>)
    ensures Flatten(Chunks(s)) == s
    decreases |s|
  {
    if |s| > ReadSize {
      ChunksCoverFile(s[ReadSize..]);
      assert s == s[..ReadSize] + s[ReadSize..];
    }
  }

  /**
   * No chunk is empty or longer than ReadSize, and only the last one can be
   * shorter than ReadSize.
   */
  lemma {:induction false} ChunkSizes(s: seq<byte>)
    ensures forall i :: 0 <= i < |Chunks(s)| ==> 0 < |Chunks(s)[i]| <= ReadSize
    ensures forall i :: 0 <= i < |Chunks(s)| - 1 ==> |Chunks(s)[i]| == ReadSize
    decreases |s|
  {
    if |s| > ReadSize {
      ChunkSizes(s[ReadSize..]);
    }
  }

  /**
   * The chunk loop. The hasher's state is the bytes fed to it so far; the
   * result is md5 applied to them. Also returned: the chunks in the order
   * they were fed and the number of reads, the last of which was empty.
   */
  method FileMd5Sum<D>(file: seq<byte>, md5: seq<byte> -> D) returns (digest: D, fed: seq<seq<byte>>, readCount: nat)
    ensures fed == Chunks(file)
    ensures digest == md5(file)
    ensures readCount == |fed| + 1
  {
    var hashed: seq<byte> := [];
    var pos := 0;
    fed, readCount := [], 0;
    while true
      invariant pos <= |file| && hashed == file[..pos]
      invariant fed + Chunks(file[pos..]) == Chunks(file)
      invariant readCount == |fed|
      decreases |file| - pos
    {
      var b := Read(file, pos);
      readCount := readCount + 1;
      if b == [] {
        assert hashed == file by {
          assert pos == |file| && file[..|file|] == file;
        }
        break;
      }
      assert file[pos..][..|b|] == b;
      hashed := hashed + b;
      fed := fed + [b];
      pos := pos + |b|;
      assert file[..pos] == file[..pos - |b|] + b;
    }
    digest := md5(hashed);
  }
}
