/**
 * The rotating JSON-lines trace store of `blindfold-trace`.
 *
 * Files are byte sequences: generation 0 is the active file and 1..n the rotated ones, older
 * with larger numbers. Every change to the file system is one step, and an operation may be cut
 * short after any number of steps, whether by a crash or by a step that fails. Records are
 * serialized by a codec of which only the stated inverse and framing properties are used.
 */
module TraceStore {
  import opened Seqs

  const NEWLINE: Byte := 10

  datatype Codec<!R(!new)> = Codec(encode: R -> Bytes, decode: Bytes -> Option<R>, valid: R -> bool) {

    /** Serialized records are non-empty single lines that read back as themselves. */
    ghost predicate Faithful() {
      forall r :: valid(r) ==> encode(r) != [] && NEWLINE !in encode(r) && decode(encode(r)) == Some(r)
    }
  }

  // ---- One file -------------------------------------------------------------------------

  /** Decodes every non-empty line; one malformed or invalid line fails the whole read. */
  function DecodeLines<R(!new)>(c: Codec<R>, lines: seq<Bytes>): Option<seq<R>> {
    if lines == [] then Some([])
    else if lines[0] == [] then DecodeLines(c, lines[1..])
    else
      var first := c.decode(lines[0]);
      if first.None? || !c.valid(first.value) then None
      else Prepend([first.value], DecodeLines(c, lines[1..]))
  }

  function Decode<R(!new)>(c: Codec<R>, file: Bytes): Option<seq<R>> {
    DecodeLines(c, SplitOn(file, NEWLINE))
  }

  // ---- The directory ----------------------------------------------------------------------

  /** The file of each generation, if it exists. */
  type Files = seq<Option<Bytes>>

  /**
   * The directory when rotation has dropped the oldest generation and moved up every generation
   * above `cut`, but none at or below it; `cut == -1` is a complete rotation.
   */
  function Shifted<T>(files: seq<Option<T>>, cut: int): seq<Option<T>>
    requires -1 <= cut < |files| - 1
  {
    files[..cut + 1] + [None] + files[cut + 1..|files| - 1]
  }

  /** Rotation cut off after `steps` steps: one removal, then one rename per generation. */
  function Rotated<T>(files: seq<Option<T>>, steps: nat): (r: seq<Option<T>>)
    requires files != []
    ensures |r| == |files|
  {
    if steps == 0 then files else Shifted(files, |files| - 1 - Min(steps, |files|))
  }

  // ---- The store --------------------------------------------------------------------------

  datatype Outcome = Ok | InvalidInput | StorageUnavailable

  class Store<R(!new)> {
    const codec: Codec<R>
    const maxBytes: nat
    const retained: nat
    var files: Files

    ghost predicate Valid()
      reads this
    {
      retained > 0 && maxBytes > 0 && |files| == retained + 1
    }

    constructor (codec: Codec<R>, maxBytes: nat, retained: nat)
      requires maxBytes > 0 && retained > 0
      ensures Valid() && files == Empty(retained)
      ensures this.codec == codec && this.maxBytes == maxBytes && this.retained == retained
    {
      this.codec, this.maxBytes, this.retained, files := codec, maxBytes, retained, Empty(retained);
    }

    /** A rename; a missing source is tolerated. The target must not exist, so nothing is overwritten. */
    method Rename(source: nat, target: nat)
      requires source < |files| && target < |files| && source != target
      requires files[target].None?
      modifies this
      ensures files == old(files)[target := old(files)[source]][source := None]
    {
      files := files[target := files[source]][source := None];
    }

    /** Rotation cut off after `steps` steps; it needs `retained + 1` of them. */
    method Rotate(steps: nat) returns (complete: bool)
      requires Valid()
      modifies this
      ensures Valid()
      ensures complete == (steps > retained)
      ensures files == Rotated(old(files), steps)
    {
      complete := false;
      if steps == 0 { return; }
      files := files[retained := None];
      var left, generation := steps - 1, retained - 1;
      while generation > 0 && left > 0
        invariant 0 <= generation < retained && 0 <= left == steps - (retained - generation)
        invariant files == Shifted(old(files), generation)
      {
        Rename(generation, generation + 1);
        left, generation := left - 1, generation - 1;
      }
      if left == 0 { return; }
      Rename(0, 1);
      complete := true;
    }

    /**
     * Creates the active file if needed, then writes the line and its newline, byte by byte, and
     * syncs: one step each. Whatever cuts it off, a prefix of the bytes is in the file.
     */
    method Write(line: Bytes, steps: nat) returns (complete: bool)
      requires Valid()
      modifies this
      ensures Valid()
      ensures complete == (steps >= |line| + 3)
      ensures files == Written(old(files), line + [NEWLINE], steps)
    {
      complete := false;
      if steps == 0 { return; }
      if files[0].None? { files := files[0 := Some([])]; }
      var active := files[0].value;
      if steps - 1 <= |line| {
        files := files[0 := Some(active + line[..steps - 1])];
        assert (line + [NEWLINE])[..steps - 1] == line[..steps - 1];
        return;
      }
      files := files[0 := Some(active + line + [NEWLINE])];
      assert Take(line + [NEWLINE], steps - 1) == line + [NEWLINE];
      ConcatAssociates(active, line, [NEWLINE]);
      complete := steps >= |line| + 3;
    }

    method Append(record: R, steps: nat) returns (outcome: Outcome)
      requires Valid()
      modifies this
      ensures Valid()
      ensures (files, outcome) == AfterAppend(codec, maxBytes, old(files), record, steps)
    {
      if !codec.valid(record) { return InvalidInput; }
      var line := codec.encode(record);
      if |line| + 1 > maxBytes { return InvalidInput; }
      var current := if files[0].Some? then |files[0].value| else 0;
      var left := steps;
      if current != 0 && current + |line| + 1 > maxBytes {
        var rotated := Rotate(steps);
        if !rotated { return StorageUnavailable; }
        left := steps - (retained + 1);
      }
      var complete := Write(line, left);
      outcome := if complete then Ok else StorageUnavailable;
    }

    /** Every retained record, oldest first, unless a file is oversized or a line malformed. */
    method ReadAll() returns (records: Option<seq<R>>)
      requires Valid()
      ensures records == ReadSlots(codec, maxBytes, files)
    {
      var read: seq<R> := [];
      var generation := retained + 1;
      while generation > 0
        invariant 0 <= generation <= retained + 1
        invariant ReadSlots(codec, maxBytes, files[generation..]) == Some(read)
      {
        generation := generation - 1;
        assert files[generation..][1..] == files[generation + 1..];
        if files[generation].Some? {
          var found := ReadPath(files[generation].value);
          if found.None? {
            ReadFails(codec, maxBytes, files, generation);
            return None;
          }
          read := read + found.value;
        } else {
          assert read + [] == read;
        }
      }
      assert files[0..] == files;
      return Some(read);
    }

    method ReadPath(file: Bytes) returns (records: Option<seq<R>>)
      ensures records == ReadFile(codec, maxBytes, file)
    {
      if |file| > maxBytes { return None; }
      var lines := SplitOn(file, NEWLINE);
      var read: seq<R> := [];
      PrependTwice([], [], Decode(codec, file));
      assert lines[0..] == lines;
      for i := 0 to |lines|
        invariant Decode(codec, file) == Prepend(read, DecodeLines(codec, lines[i..]))
      {
        assert lines[i..][1..] == lines[i + 1..];
        if lines[i] != [] {
          var record := codec.decode(lines[i]);
          if record.None? || !codec.valid(record.value) { return None; }
          PrependTwice(read, [record.value], DecodeLines(codec, lines[i + 1..]));
          read := read + [record.value];
        }
      }
      assert read + [] == read;
      return Some(read);
    }

    /** Removes the active file first and then each older generation, for at most `steps` removals. */
    method Clear(steps: nat) returns (removed: nat)
      requires Valid()
      modifies this
      ensures Valid()
      ensures files == Cleared(old(files), steps)
      ensures removed == Present(old(files)) - Present(files)
    {
      removed := 0;
      for generation := 0 to Min(retained + 1, steps)
        invariant files == Cleared(old(files), generation)
        invariant removed == Present(old(files)) - Present(files)
      {
        PresentWithout(files, generation);
        ClearedMore(old(files), generation);
        if files[generation].Some? {
          removed := removed + 1;
        }
        files := files[generation := None];
      }
    }
  }

  function Empty(n: nat): Files { seq(n + 1, _ => None) }

  /** How many of the files exist. */
  function Present(files: Files): nat {
    if files == [] then 0 else (if files[0].Some? then 1 else 0) + Present(files[1..])
  }

  lemma {:induction false} PresentWithout(files: Files, g: nat)
    requires g < |files|
    ensures Present(files[g := None]) == Present(files) - if files[g].Some? then 1 else 0
  {
    if g > 0 {
      assert files[g := None][1..] == files[1..][g - 1 := None];
      PresentWithout(files[1..], g - 1);
    } else {
      assert files[g := None][1..] == files[1..];
    }
  }

  function Cleared<T>(files: seq<Option<T>>, steps: nat): seq<Option<T>> {
    seq(Min(|files|, steps), _ => None) + files[Min(|files|, steps)..]
  }

  lemma ClearedMore(files: Files, g: nat)
    requires g < |files|
    ensures |Cleared(files, g)| == |files| && Cleared(files, g)[g := None] == Cleared(files, g + 1)
  {
  }

  function Active(files: Files): Bytes
    requires files != []
  {
    if files[0].Some? then files[0].value else []
  }

  ghost function Written(files: Files, data: Bytes, steps: nat): Files
    requires files != []
  {
    if steps == 0 then files else files[0 := Some(Active(files) + Take(data, steps - 1))]
  }

  ghost predicate MustRotate<R(!new)>(c: Codec<R>, maxBytes: nat, files: Files, record: R)
    requires files != []
  {
    Active(files) != [] && |Active(files)| + |c.encode(record)| + 1 > maxBytes
  }

  ghost predicate Admissible<R(!new)>(c: Codec<R>, maxBytes: nat, record: R) {
    c.valid(record) && |c.encode(record)| + 1 <= maxBytes
  }

  /** How many steps an append spends on rotation. */
  ghost function Moves<R(!new)>(c: Codec<R>, maxBytes: nat, files: Files, record: R): nat
    requires files != []
  {
    if MustRotate(c, maxBytes, files, record) then |files| else 0
  }

  /** The directory and result of one append that is cut off after `steps` steps. */
  ghost function AfterAppend<R(!new)>(c: Codec<R>, maxBytes: nat, files: Files, record: R, steps: nat): (Files, Outcome)
    requires files != []
  {
    if !Admissible(c, maxBytes, record) then (files, InvalidInput)
    else
      var moves := Moves(c, maxBytes, files, record);
      if steps < moves then (Rotated(files, steps), StorageUnavailable)
      else
        (Written(Rotated(files, moves), c.encode(record) + [NEWLINE], steps - moves),
         if steps >= moves + |c.encode(record)| + 3 then Ok else StorageUnavailable)
  }

  /** A record for which there is room, or that opens the active file, changes nothing but that file, which it is added to. */
  lemma AppendThatFitsDropsNothing<R(!new)>(c: Codec<R>, maxBytes: nat, files: Files, record: R, steps: nat)
    requires files != [] && (files[0].None? || files[0].value == [] || |files[0].value| + |c.encode(record)| + 1 <= maxBytes)
    ensures var after := AfterAppend(c, maxBytes, files, record, steps).0;
            && |after| == |files| && after[1..] == files[1..] && Active(files) <= Active(after)
            && (Admissible(c, maxBytes, record) && steps >= |c.encode(record)| + 2
                ==> after[0] == Some(Active(files) + c.encode(record) + [NEWLINE]))
  {
    var data := c.encode(record) + [NEWLINE];
    assert data[..|data|] == data;
    ConcatAssociates(Active(files), c.encode(record), [NEWLINE]);
  }

  /** A record for which a file with content has no room goes into a new one, every other file moving on by one. */
  lemma AppendThatDoesNotFitRotates<R(!new)>(c: Codec<R>, maxBytes: nat, files: Files, record: R, steps: nat)
    requires |files| > 1 && files[0].Some? && files[0].value != [] && Admissible(c, maxBytes, record)
    requires |files[0].value| + |c.encode(record)| + 1 > maxBytes && steps >= |files| + |c.encode(record)| + 2
    ensures AfterAppend(c, maxBytes, files, record, steps).0 == [Some(c.encode(record) + [NEWLINE])] + files[..|files| - 1]
  {
    assert Rotated(files, |files|) == [None] + files[..|files| - 1];
    var data := c.encode(record) + [NEWLINE];
    assert data[..|data|] == data && [] + data == data;
  }

  function ReadFile<R(!new)>(c: Codec<R>, maxBytes: nat, file: Bytes): Option<seq<R>> {
    if |file| > maxBytes then None else Decode(c, file)
  }

  function ReadSlots<R(!new)>(c: Codec<R>, maxBytes: nat, files: Files): Option<seq<R>> {
    if files == [] then Some([])
    else
      var older := ReadSlots(c, maxBytes, files[1..]);
      var here := if files[0].None? then Some([]) else ReadFile(c, maxBytes, files[0].value);
      if older.None? || here.None? then None else Some(older.value + here.value)
  }

  lemma {:induction false} ReadFails<R(!new)>(c: Codec<R>, maxBytes: nat, files: Files, g: nat)
    requires g < |files| && files[g].Some? && ReadFile(c, maxBytes, files[g].value).None?
    ensures ReadSlots(c, maxBytes, files).None?
  {
    if g > 0 { ReadFails(c, maxBytes, files[1..], g - 1); }
  }
}
