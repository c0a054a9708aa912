/** The local filesystem as the script uses it: whole files by path, written in chunks, removed once. */
module Storage {

  /** The bytes of the chunks, in order. */
  function Concat(chunks: seq<seq<bv8>>): seq<bv8> {
    if chunks == [] then [] else chunks[0] + Concat(chunks[1..])
  }

  /** Appending one more chunk appends its bytes. */
  lemma {:induction false} ConcatSnoc(chunks: seq<seq<bv8>>, chunk: seq<bv8>)
    ensures Concat(chunks + [chunk]) == Concat(chunks) + chunk
  {
    if chunks != [] {
      assert (chunks + [chunk])[1..] == chunks[1..] + [chunk];
      ConcatSnoc(chunks[1..], chunk);
    } else {
      assert [chunk][1..] == [];
    }
  }

  /** The bytes of the first `i + 1` chunks are those of the first `i` followed by chunk `i`. */
  lemma ConcatPrefix(chunks: seq<seq<bv8>>, i: nat)
    requires i < |chunks|
    ensures Concat(chunks[..i + 1]) == Concat(chunks[..i]) + chunks[i]
  {
    assert chunks[..i + 1] == chunks[..i] + [chunks[i]];
    ConcatSnoc(chunks[..i], chunks[i]);
  }

  /** The files on disk by path; `removeCalls` counts the calls to `os.remove`. */
  class Disk {
    var files: map<string, seq<bv8>>
    ghost var removeCalls: nat

    constructor (initial: map<string, seq<bv8>>)
      ensures files == initial && removeCalls == 0
    {
      files := initial;
      removeCalls := 0;
    }

    /** `open(path, 'wb')`: creates the file, or empties it if it exists. */
    method Create(path: string)
      modifies this`files
      ensures files == old(files)[path := []]
    {
      files := files[path := []];
    }

    /** `f.write(data)` on a file opened for writing. */
    method Append(path: string, data: seq<bv8>)
      requires path in files
      modifies this`files
      ensures files == old(files)[path := old(files[path]) + data]
    {
      files := files[path := files[path] + data];
    }

    /** `os.remove(path)`; `fails` stands for an OSError other than the file being absent. */
    method Remove(path: string, fails: bool) returns (removed: bool)
      modifies this
      ensures removed == (path in old(files) && !fails)
      ensures files == if removed then old(files) - {path} else old(files)
      ensures removeCalls == old(removeCalls) + 1
    {
      removed := path in files && !fails;
      if removed {
        files := files - {path};
      }
      removeCalls := removeCalls + 1;
    }
  }
}
