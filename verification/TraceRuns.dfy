/**
 * The trace store over whole runs of appends and clears, each cut off anywhere.
 *
 * Each file is followed by a trace of what was written to it: lines of pieces, a piece being the
 * part of a record's serialization that one append got onto the disk.
 */
module TraceRuns {
  import opened Seqs
  import opened TraceStore

  // ---- Lines of pieces --------------------------------------------------------------------

  /** The first `length` bytes of a serialized record. */
  datatype Piece<R> = Piece(record: R, length: nat)

  type Line<R> = seq<Piece<R>>

  /** A file's lines; the last one is still open and may be empty. */
  type Trace<R> = seq<Line<R>>

  ghost predicate Genuine<R(!new)>(c: Codec<R>, p: Piece<R>) { c.valid(p.record) && 0 < p.length <= |c.encode(p.record)| }

  ghost predicate Whole<R(!new)>(c: Codec<R>, p: Piece<R>) { p.length == |c.encode(p.record)| }

  ghost predicate GenuineLine<R(!new)>(c: Codec<R>, line: Line<R>) { forall p <- line :: Genuine(c, p) }

  ghost predicate GenuineTrace<R(!new)>(c: Codec<R>, t: Trace<R>) { forall line <- t :: GenuineLine(c, line) }

  ghost function PieceText<R(!new)>(c: Codec<R>, p: Piece<R>): Bytes { Take(c.encode(p.record), p.length) }

  ghost function LineText<R(!new)>(c: Codec<R>, line: Line<R>): Bytes {
    if line == [] then [] else LineText(c, line[..|line| - 1]) + PieceText(c, line[|line| - 1])
  }

  /** Nothing, or one record that is neither torn nor glued to another. */
  ghost predicate Clean<R(!new)>(c: Codec<R>, line: Line<R>) { line == [] || (|line| == 1 && Whole(c, line[0])) }

  ghost predicate CleanTrace<R(!new)>(c: Codec<R>, t: Trace<R>) { forall line <- t :: Clean(c, line) }

  /** Neither part of a serialized record nor several of them on one line are a record. */
  ghost predicate OnePerLine<R(!new)>(c: Codec<R>) {
    forall line: Line<R> :: GenuineLine(c, line) && !Clean(c, line) ==> c.decode(LineText(c, line)) == None
  }

  ghost function Text<R(!new)>(c: Codec<R>, t: Trace<R>): Bytes {
    if t == [] then [] else if |t| == 1 then LineText(c, t[0]) else LineText(c, t[0]) + [NEWLINE] + Text(c, t[1..])
  }

  /** The records whose serialization stands in a line as a whole. */
  ghost function WholesOfLine<R(!new)>(c: Codec<R>, line: Line<R>): seq<R> {
    if line == [] then []
    else
      var last := line[|line| - 1];
      WholesOfLine(c, line[..|line| - 1]) + if Whole(c, last) then [last.record] else []
  }

  ghost function WholesOf<R(!new)>(c: Codec<R>, t: Trace<R>): seq<R> {
    if t == [] then [] else WholesOfLine(c, t[0]) + WholesOf(c, t[1..])
  }

  ghost function LineTexts<R(!new)>(c: Codec<R>, t: Trace<R>): seq<Bytes> {
    if t == [] then [] else [LineText(c, t[0])] + LineTexts(c, t[1..])
  }

  lemma {:induction false} LineTextIsOneLine<R(!new)>(c: Codec<R>, line: Line<R>)
    requires c.Faithful() && GenuineLine(c, line)
    ensures NEWLINE !in LineText(c, line) && (line != [] ==> LineText(c, line) != [])
  {
    if line != [] {
      LineTextIsOneLine(c, line[..|line| - 1]);
      assert Genuine(c, line[|line| - 1]);
    }
  }

  lemma {:induction false} SplitText<R(!new)>(c: Codec<R>, t: Trace<R>)
    requires c.Faithful() && GenuineTrace(c, t) && t != []
    ensures SplitOn(Text(c, t), NEWLINE) == LineTexts(c, t)
  {
    LineTextIsOneLine(c, t[0]);
    if |t| == 1 {
      SplitOnNone(LineText(c, t[0]), NEWLINE);
      assert t[1..] == [];
    } else {
      SplitOnFirst(LineText(c, t[0]), NEWLINE, Text(c, t[1..]));
      SplitText(c, t[1..]);
    }
  }

  lemma LineReads<R(!new)>(c: Codec<R>, line: Line<R>)
    requires c.Faithful() && OnePerLine(c) && GenuineLine(c, line) && line != []
    ensures LineText(c, line) != []
    ensures c.decode(LineText(c, line)) == if Clean(c, line) then Some(line[0].record) else None
    ensures Clean(c, line) ==> WholesOfLine(c, line) == [line[0].record] && c.valid(line[0].record)
  {
    LineTextIsOneLine(c, line);
    if Clean(c, line) {
      assert Genuine(c, line[0]) && line[..0] == [];
      assert LineText(c, line) == [] + PieceText(c, line[0]) == c.encode(line[0].record);
    }
  }

  lemma {:induction false} LinesRead<R(!new)>(c: Codec<R>, t: Trace<R>)
    requires c.Faithful() && OnePerLine(c) && GenuineTrace(c, t)
    ensures DecodeLines(c, LineTexts(c, t)) == if CleanTrace(c, t) then Some(WholesOf(c, t)) else None
  {
    if t != [] {
      LinesRead(c, t[1..]);
      assert GenuineLine(c, t[0]);
      assert CleanTrace(c, t) <==> Clean(c, t[0]) && CleanTrace(c, t[1..]);
      var texts := LineTexts(c, t);
      assert texts[0] == LineText(c, t[0]) && texts[1..] == LineTexts(c, t[1..]);
      if t[0] != [] { LineReads(c, t[0]); }
      assert [] + WholesOf(c, t[1..]) == WholesOf(c, t[1..]);
    }
  }

  /** A file reads exactly when it holds no torn and no glued line, and then gives its records. */
  lemma TraceReads<R(!new)>(c: Codec<R>, t: Trace<R>)
    requires c.Faithful() && OnePerLine(c) && GenuineTrace(c, t) && t != []
    ensures Decode(c, Text(c, t)) == if CleanTrace(c, t) then Some(WholesOf(c, t)) else None
  {
    SplitText(c, t);
    LinesRead(c, t);
  }

  // ---- Writing ----------------------------------------------------------------------------

  ghost function Continue<R>(t: Trace<R>, p: Piece<R>): Trace<R>
    requires t != []
  {
    t[..|t| - 1] + [t[|t| - 1] + [p]]
  }

  /** What the first `k` bytes of a record's line and newline make of a trace. */
  ghost function Extended<R(!new)>(c: Codec<R>, t: Trace<R>, r: R, k: nat): Trace<R>
    requires t != []
  {
    var n := |c.encode(r)|;
    if k == 0 then t else if k <= n then Continue(t, Piece(r, k)) else Continue(t, Piece(r, n)) + [[]]
  }

  lemma {:induction false} TextContinues<R(!new)>(c: Codec<R>, t: Trace<R>, p: Piece<R>)
    requires t != []
    ensures Text(c, Continue(t, p)) == Text(c, t) + PieceText(c, p)
    ensures WholesOf(c, Continue(t, p)) == WholesOf(c, t) + if Whole(c, p) then [p.record] else []
  {
    var more := Continue(t, p);
    if |t| == 1 {
      assert more == [t[0] + [p]] && (t[0] + [p])[..|t[0]|] == t[0];
      assert t[1..] == [] && more[1..] == [];
    } else {
      assert more[0] == t[0] && more[1..] == Continue(t[1..], p);
      TextContinues(c, t[1..], p);
      ConcatAssociates(LineText(c, t[0]) + [NEWLINE], Text(c, t[1..]), PieceText(c, p));
    }
  }

  lemma {:induction false} TextCloses<R(!new)>(c: Codec<R>, t: Trace<R>)
    requires t != []
    ensures Text(c, t + [[]]) == Text(c, t) + [NEWLINE] && WholesOf(c, t + [[]]) == WholesOf(c, t)
  {
    var more := t + [[]];
    if |t| == 1 {
      assert more[1..] == [[]] && more[1..][1..] == [] && t[1..] == [];
    } else {
      assert more[0] == t[0] && more[1..] == t[1..] + [[]];
      TextCloses(c, t[1..]);
      ConcatAssociates(LineText(c, t[0]) + [NEWLINE], Text(c, t[1..]), [NEWLINE]);
    }
  }

  lemma TextExtends<R(!new)>(c: Codec<R>, t: Trace<R>, r: R, k: nat)
    requires t != []
    ensures Text(c, Extended(c, t, r, k)) == Text(c, t) + Take(c.encode(r) + [NEWLINE], k)
    ensures WholesOf(c, Extended(c, t, r, k)) == WholesOf(c, t) + if k > 0 && k >= |c.encode(r)| then [r] else []
  {
    var line := c.encode(r);
    if k == 0 {
    } else if k <= |line| {
      TextContinues(c, t, Piece(r, k));
      assert (line + [NEWLINE])[..k] == line[..k];
    } else {
      TextContinues(c, t, Piece(r, |line|));
      TextCloses(c, Continue(t, Piece(r, |line|)));
      ConcatAssociates(Text(c, t), line, [NEWLINE]);
    }
  }

  /** A write does damage exactly when it stops inside the line or starts behind an open one. */
  lemma ExtendedIsClean<R(!new)>(c: Codec<R>, t: Trace<R>, r: R, k: nat)
    requires t != [] && GenuineTrace(c, t) && c.Faithful() && c.valid(r)
    ensures GenuineTrace(c, Extended(c, t, r, k)) && Extended(c, t, r, k) != []
    ensures CleanTrace(c, Extended(c, t, r, k))
            <==> CleanTrace(c, t) && (k == 0 || (k >= |c.encode(r)| && t[|t| - 1] == []))
  {
    var init, last := t[..|t| - 1], t[|t| - 1];
    assert t == init + [last];
    if k > 0 {
      var p := Piece(r, Min(k, |c.encode(r)|));
      var more := last + [p];
      assert Genuine(c, p) && GenuineLine(c, last);
      assert GenuineLine(c, more);
      assert Clean(c, more) <==> last == [] && Whole(c, p);
      assert Continue(t, p) == init + [more];
    }
  }

  // ---- The directory ----------------------------------------------------------------------

  type Shadow<R> = seq<Option<Trace<R>>>

  ghost predicate GenuineSlot<R(!new)>(c: Codec<R>, maxBytes: nat, slot: Option<Trace<R>>) {
    slot.Some? ==> slot.value != [] && GenuineTrace(c, slot.value) && |Text(c, slot.value)| <= maxBytes
  }

  /** Every file is within the limit and made of pieces. */
  ghost predicate Sound<R(!new)>(c: Codec<R>, maxBytes: nat, dir: Shadow<R>) {
    dir != [] && forall slot <- dir :: GenuineSlot(c, maxBytes, slot)
  }

  ghost predicate Damaged<R(!new)>(c: Codec<R>, slot: Option<Trace<R>>) { slot.Some? && !CleanTrace(c, slot.value) }

  ghost predicate Undamaged<R(!new)>(c: Codec<R>, dir: Shadow<R>) { forall slot <- dir :: !Damaged(c, slot) }

  ghost function FileOf<R(!new)>(c: Codec<R>, slot: Option<Trace<R>>): Option<Bytes> {
    if slot.None? then None else Some(Text(c, slot.value))
  }

  ghost function FilesOf<R(!new)>(c: Codec<R>, dir: Shadow<R>): Files {
    seq(|dir|, i requires 0 <= i < |dir| => FileOf(c, dir[i]))
  }

  ghost function WholesAt<R(!new)>(c: Codec<R>, slot: Option<Trace<R>>): seq<R> {
    if slot.None? then [] else WholesOf(c, slot.value)
  }

  /** All whole records held, oldest generation first. */
  ghost function Wholes<R(!new)>(c: Codec<R>, dir: Shadow<R>): seq<R> {
    if dir == [] then [] else Wholes(c, dir[1..]) + WholesAt(c, dir[0])
  }

  lemma {:induction false} WholesConcat<R(!new)>(c: Codec<R>, a: Shadow<R>, b: Shadow<R>)
    ensures Wholes(c, a + b) == Wholes(c, b) + Wholes(c, a)
  {
    if a == [] {
      assert a + b == b;
    } else {
      assert (a + b)[0] == a[0] && (a + b)[1..] == a[1..] + b;
      WholesConcat(c, a[1..], b);
      ConcatAssociates(Wholes(c, b), Wholes(c, a[1..]), WholesAt(c, a[0]));
    }
  }

  lemma {:induction false} WholesOfNothing<R(!new)>(c: Codec<R>, n: nat)
    ensures Wholes(c, seq(n, _ => None)) == []
  {
    var none: Shadow<R> := seq(n, _ => None);
    if n > 0 {
      assert none[1..] == seq(n - 1, _ => None);
      WholesOfNothing(c, n - 1);
    }
  }

  lemma WholesGap<R(!new)>(c: Codec<R>, dir: Shadow<R>)
    ensures Wholes(c, [None] + dir) == Wholes(c, dir)
  {
    assert ([None] + dir)[1..] == dir;
  }

  lemma WholesOne<R(!new)>(c: Codec<R>, slot: Option<Trace<R>>)
    ensures Wholes(c, [slot]) == WholesAt(c, slot)
  {
    assert [slot][1..] == [];
  }

  lemma WholesLast<R(!new)>(c: Codec<R>, dir: Shadow<R>)
    requires dir != []
    ensures Wholes(c, dir) == WholesAt(c, dir[|dir| - 1]) + Wholes(c, dir[..|dir| - 1])
  {
    assert dir == dir[..|dir| - 1] + [dir[|dir| - 1]];
    WholesConcat(c, dir[..|dir| - 1], [dir[|dir| - 1]]);
    WholesOne(c, dir[|dir| - 1]);
  }

  lemma WholesShifted<R(!new)>(c: Codec<R>, dir: Shadow<R>, cut: int)
    requires -1 <= cut < |dir| - 1
    ensures Wholes(c, Shifted(dir, cut)) == Wholes(c, dir[..|dir| - 1])
  {
    var low, high := dir[..cut + 1], dir[cut + 1..|dir| - 1];
    assert dir[..|dir| - 1] == low + high;
    ConcatAssociates(low, [None], high);
    WholesConcat(c, low, high);
    WholesConcat(c, low, [None] + high);
    WholesGap(c, high);
  }

  /** Wherever rotation stops, the records held are those of all generations, or of all but the oldest. */
  lemma RotationDropsOldest<R(!new)>(c: Codec<R>, dir: Shadow<R>, steps: nat) returns (dropped: seq<R>)
    requires dir != []
    ensures Wholes(c, dir) == dropped + Wholes(c, Rotated(dir, steps))
    ensures steps > 0 ==> dropped == WholesAt(c, dir[|dir| - 1])
  {
    if steps == 0 {
      dropped := [];
      assert Wholes(c, dir) == dropped + Wholes(c, dir);
    } else {
      dropped := WholesAt(c, dir[|dir| - 1]);
      WholesLast(c, dir);
      WholesShifted(c, dir, |dir| - 1 - Min(steps, |dir|));
    }
  }

  /** A clear removes newest files first: what a cut one leaves is the older part. */
  lemma ClearDropsNewest<R(!new)>(c: Codec<R>, dir: Shadow<R>, steps: nat)
    ensures var k := Min(|dir|, steps);
            && Wholes(c, Cleared(dir, steps)) == Wholes(c, dir[k..])
            && Wholes(c, dir) == Wholes(c, dir[k..]) + Wholes(c, dir[..k])
  {
    var k := Min(|dir|, steps);
    assert dir == dir[..k] + dir[k..];
    WholesConcat(c, dir[..k], dir[k..]);
    WholesConcat(c, seq(k, _ => None), dir[k..]);
    WholesOfNothing(c, k);
  }

  /** Reading succeeds exactly when no file holds a torn or glued line, and then gives all whole records. */
  lemma {:induction false} DirectoryReads<R(!new)>(c: Codec<R>, maxBytes: nat, dir: Shadow<R>)
    requires c.Faithful() && OnePerLine(c) && forall slot <- dir :: GenuineSlot(c, maxBytes, slot)
    ensures ReadSlots(c, maxBytes, FilesOf(c, dir)) == if Undamaged(c, dir) then Some(Wholes(c, dir)) else None
  {
    if dir != [] {
      DirectoryReads(c, maxBytes, dir[1..]);
      assert FilesOf(c, dir)[0] == FileOf(c, dir[0]) && FilesOf(c, dir)[1..] == FilesOf(c, dir[1..]);
      assert GenuineSlot(c, maxBytes, dir[0]);
      assert Undamaged(c, dir) <==> !Damaged(c, dir[0]) && Undamaged(c, dir[1..]);
      if dir[0].Some? { TraceReads(c, dir[0].value); }
    }
  }

  // ---- Operations -------------------------------------------------------------------------

  /** One operation of a run; either may be cut off after any number of steps. */
  datatype Operation<R> = Append(record: R, steps: nat) | Clear(steps: nat)

  ghost function Latest<R>(dir: Shadow<R>): (t: Trace<R>)
    requires dir != []
    ensures t != []
  {
    if dir[0].Some? && dir[0].value != [] then dir[0].value else [[]]
  }

  /** How many bytes of its line and newline an append puts behind the active file. */
  ghost function BytesWritten<R(!new)>(c: Codec<R>, maxBytes: nat, dir: Shadow<R>, r: R, steps: nat): nat
    requires dir != []
  {
    var moves := Moves(c, maxBytes, FilesOf(c, dir), r);
    if !Admissible(c, maxBytes, r) || steps <= moves then 0 else Min(steps - moves - 1, |c.encode(r)| + 1)
  }

  /** Rotation as far as an append gets with it. */
  ghost function MovedBy<R(!new)>(c: Codec<R>, maxBytes: nat, dir: Shadow<R>, r: R, steps: nat): (moved: Shadow<R>)
    requires dir != []
    ensures |moved| == |dir|
  {
    if !Admissible(c, maxBytes, r) then dir else Rotated(dir, Min(steps, Moves(c, maxBytes, FilesOf(c, dir), r)))
  }

  ghost function Appended<R(!new)>(c: Codec<R>, maxBytes: nat, dir: Shadow<R>, r: R, steps: nat): (after: Shadow<R>)
    requires dir != []
    ensures |after| == |dir|
  {
    var moved := MovedBy(c, maxBytes, dir, r, steps);
    if !Admissible(c, maxBytes, r) || steps <= Moves(c, maxBytes, FilesOf(c, dir), r) then moved
    else moved[0 := Some(Extended(c, Latest(moved), r, BytesWritten(c, maxBytes, dir, r, steps)))]
  }

  lemma FilesRotated<R(!new)>(c: Codec<R>, dir: Shadow<R>, steps: nat)
    requires dir != []
    ensures FilesOf(c, Rotated(dir, steps)) == Rotated(FilesOf(c, dir), steps)
  {
    var files, moved := FilesOf(c, dir), Rotated(dir, steps);
    forall i | 0 <= i < |dir| ensures FileOf(c, moved[i]) == Rotated(files, steps)[i] { }
  }

  lemma FilesCleared<R(!new)>(c: Codec<R>, dir: Shadow<R>, steps: nat)
    ensures FilesOf(c, Cleared(dir, steps)) == Cleared(FilesOf(c, dir), steps)
  {
  }

  lemma LatestText<R(!new)>(c: Codec<R>, dir: Shadow<R>)
    requires dir != []
    ensures Text(c, Latest(dir)) == Active(FilesOf(c, dir))
  {
    var none: Line<R> := [];
    assert Text(c, [none]) == LineText(c, none) == [];
  }

  lemma FilesExtended<R(!new)>(c: Codec<R>, dir: Shadow<R>, r: R, k: nat)
    requires dir != []
    ensures var files := FilesOf(c, dir);
            FilesOf(c, dir[0 := Some(Extended(c, Latest(dir), r, k))])
            == files[0 := Some(Active(files) + Take(c.encode(r) + [NEWLINE], k))]
  {
    LatestText(c, dir);
    TextExtends(c, Latest(dir), r, k);
  }

  lemma FilesWritten<R(!new)>(c: Codec<R>, dir: Shadow<R>, r: R, steps: nat)
    requires dir != [] && steps > 0
    ensures FilesOf(c, dir[0 := Some(Extended(c, Latest(dir), r, Min(steps - 1, |c.encode(r)| + 1)))])
            == Written(FilesOf(c, dir), c.encode(r) + [NEWLINE], steps)
  {
    var data := c.encode(r) + [NEWLINE];
    FilesExtended(c, dir, r, Min(steps - 1, |data|));
    assert Take(data, Min(steps - 1, |data|)) == Take(data, steps - 1);
  }

  /** An append step by step, for the traces and for the files alike. */
  lemma AppendedParts<R(!new)>(c: Codec<R>, maxBytes: nat, dir: Shadow<R>, r: R, steps: nat)
    requires dir != []
    ensures var moves := Moves(c, maxBytes, FilesOf(c, dir), r);
            Appended(c, maxBytes, dir, r, steps)
            == if !Admissible(c, maxBytes, r) then dir
               else if steps <= moves then Rotated(dir, steps)
               else
                 var moved := Rotated(dir, moves);
                 moved[0 := Some(Extended(c, Latest(moved), r, Min(steps - moves - 1, |c.encode(r)| + 1)))]
  {
  }

  lemma AfterAppendParts<R(!new)>(c: Codec<R>, maxBytes: nat, files: Files, r: R, steps: nat)
    requires files != []
    ensures var moves := Moves(c, maxBytes, files, r);
            AfterAppend(c, maxBytes, files, r, steps).0
            == if !Admissible(c, maxBytes, r) then files
               else if steps <= moves then Rotated(files, steps)
               else Written(Rotated(files, moves), c.encode(r) + [NEWLINE], steps - moves)
  {
  }

  /** The trace follows the files: both take the same append. */
  lemma TraceFollowsFiles<R(!new)>(c: Codec<R>, maxBytes: nat, dir: Shadow<R>, r: R, steps: nat)
    requires dir != []
    ensures FilesOf(c, Appended(c, maxBytes, dir, r, steps)) == AfterAppend(c, maxBytes, FilesOf(c, dir), r, steps).0
  {
    var moves := Moves(c, maxBytes, FilesOf(c, dir), r);
    AppendedParts(c, maxBytes, dir, r, steps);
    AfterAppendParts(c, maxBytes, FilesOf(c, dir), r, steps);
    if !Admissible(c, maxBytes, r) {
    } else if steps <= moves {
      FilesRotated(c, dir, steps);
    } else {
      FilesRotated(c, dir, moves);
      FilesWritten(c, Rotated(dir, moves), r, steps - moves);
    }
  }

  lemma RotatedFrom<R(!new)>(dir: Shadow<R>, steps: nat)
    requires dir != []
    ensures forall slot <- Rotated(dir, steps) :: slot == None || slot in dir
    ensures steps >= |dir| ==> Rotated(dir, steps)[0] == None
  {
  }

  lemma AppendKeepsSound<R(!new)>(c: Codec<R>, maxBytes: nat, dir: Shadow<R>, r: R, steps: nat)
    requires c.Faithful() && Sound(c, maxBytes, dir)
    ensures Sound(c, maxBytes, Appended(c, maxBytes, dir, r, steps))
  {
    var moves, moved := Moves(c, maxBytes, FilesOf(c, dir), r), MovedBy(c, maxBytes, dir, r, steps);
    RotatedFrom(dir, Min(steps, moves));
    assert Sound(c, maxBytes, moved);
    if Admissible(c, maxBytes, r) && steps > moves {
      var latest, k := Latest(moved), BytesWritten(c, maxBytes, dir, r, steps);
      assert moved[0] in moved && GenuineSlot(c, maxBytes, moved[0]);
      assert GenuineTrace(c, latest);
      LatestText(c, moved);
      FilesRotated(c, dir, Min(steps, moves));
      TextExtends(c, latest, r, k);
      ExtendedIsClean(c, latest, r, k);
      assert GenuineSlot(c, maxBytes, Some(Extended(c, latest, r, k)));
    }
  }

  /** The record's line is on the disk as a whole, with or without its newline. */
  ghost predicate WritesLine<R(!new)>(c: Codec<R>, maxBytes: nat, dir: Shadow<R>, r: R, steps: nat)
    requires dir != []
  {
    var k := BytesWritten(c, maxBytes, dir, r, steps);
    k > 0 && k >= |c.encode(r)|
  }

  lemma WholesExtended<R(!new)>(c: Codec<R>, dir: Shadow<R>, r: R, k: nat)
    requires dir != []
    ensures Wholes(c, dir[0 := Some(Extended(c, Latest(dir), r, k))])
            == Wholes(c, dir) + if k > 0 && k >= |c.encode(r)| then [r] else []
  {
    var more := Some(Extended(c, Latest(dir), r, k));
    assert dir[0 := more][0] == more && dir[0 := more][1..] == dir[1..];
    LatestWholes(c, dir);
    TextExtends(c, Latest(dir), r, k);
    ConcatAssociates(Wholes(c, dir[1..]), WholesAt(c, dir[0]), if k > 0 && k >= |c.encode(r)| then [r] else []);
  }

  lemma LatestWholes<R(!new)>(c: Codec<R>, dir: Shadow<R>)
    requires dir != []
    ensures WholesOf(c, Latest(dir)) == WholesAt(c, dir[0])
  {
    var none: Trace<R> := [[]];
    assert none[1..] == [] && WholesOf(c, none) == [];
  }

  /** An append drops whole oldest generations and adds at most its own record at the end. */
  lemma AppendAdvances<R(!new)>(c: Codec<R>, maxBytes: nat, dir: Shadow<R>, r: R, steps: nat)
    requires dir != []
    ensures Wholes(c, Appended(c, maxBytes, dir, r, steps))
            == Wholes(c, MovedBy(c, maxBytes, dir, r, steps)) + if WritesLine(c, maxBytes, dir, r, steps) then [r] else []
  {
    var moved, k := MovedBy(c, maxBytes, dir, r, steps), BytesWritten(c, maxBytes, dir, r, steps);
    if Admissible(c, maxBytes, r) && steps > Moves(c, maxBytes, FilesOf(c, dir), r) {
      WholesExtended(c, moved, r, k);
    } else {
      assert Wholes(c, moved) + [] == Wholes(c, moved);
    }
  }

  // ---- Runs -------------------------------------------------------------------------------

  /** The traces of the directory, and the records whose line was written since the last complete clear. */
  datatype State<R> = State(dir: Shadow<R>, written: seq<R>)

  ghost function Step<R(!new)>(c: Codec<R>, maxBytes: nat, s: State<R>, op: Operation<R>): (after: State<R>)
    requires s.dir != []
    ensures |after.dir| == |s.dir|
  {
    match op
    case Append(r, steps) =>
      State(Appended(c, maxBytes, s.dir, r, steps), s.written + if WritesLine(c, maxBytes, s.dir, r, steps) then [r] else [])
    case Clear(steps) => State(Cleared(s.dir, steps), if steps >= |s.dir| then [] else s.written)
  }

  ghost function Run<R(!new)>(c: Codec<R>, maxBytes: nat, n: nat, ops: seq<Operation<R>>): (s: State<R>)
    ensures |s.dir| == n + 1
  {
    if ops == [] then State(seq(n + 1, _ => None), [])
    else Step(c, maxBytes, Run(c, maxBytes, n, ops[..|ops| - 1]), ops[|ops| - 1])
  }

  /** The files after a run, by the store's own operations. */
  ghost function RunFiles<R(!new)>(c: Codec<R>, maxBytes: nat, n: nat, ops: seq<Operation<R>>): (files: Files)
    ensures |files| == n + 1
  {
    if ops == [] then Empty(n)
    else
      var before := RunFiles(c, maxBytes, n, ops[..|ops| - 1]);
      match ops[|ops| - 1]
      case Append(r, steps) => AfterAppend(c, maxBytes, before, r, steps).0
      case Clear(steps) => Cleared(before, steps)
  }

  /** What holds after every run. */
  ghost predicate Invariant<R(!new)>(c: Codec<R>, maxBytes: nat, s: State<R>) {
    Sound(c, maxBytes, s.dir) && Subsequence(Wholes(c, s.dir), s.written)
  }

  lemma ClearKeepsSound<R(!new)>(c: Codec<R>, maxBytes: nat, dir: Shadow<R>, steps: nat)
    requires Sound(c, maxBytes, dir)
    ensures Sound(c, maxBytes, Cleared(dir, steps))
  {
    var after := Cleared(dir, steps);
    forall i | 0 <= i < |after| ensures GenuineSlot(c, maxBytes, after[i]) {
      if i >= Min(|dir|, steps) { assert after[i] == dir[i] && dir[i] in dir; }
    }
  }

  lemma ClearKeepsInvariant<R(!new)>(c: Codec<R>, maxBytes: nat, s: State<R>, steps: nat)
    requires Invariant(c, maxBytes, s)
    ensures Invariant(c, maxBytes, Step(c, maxBytes, s, Clear(steps)))
  {
    var k := Min(|s.dir|, steps);
    ClearKeepsSound(c, maxBytes, s.dir, steps);
    ClearDropsNewest(c, s.dir, steps);
    if steps >= |s.dir| {
      assert s.dir[k..] == [];
    } else {
      SubsequenceOfParts(Wholes(c, s.dir[k..]), Wholes(c, s.dir[..k]), s.written);
    }
  }

  lemma AppendKeepsInvariant<R(!new)>(c: Codec<R>, maxBytes: nat, s: State<R>, r: R, steps: nat)
    requires c.Faithful() && Invariant(c, maxBytes, s)
    ensures Invariant(c, maxBytes, Step(c, maxBytes, s, Append(r, steps)))
  {
    var moved := MovedBy(c, maxBytes, s.dir, r, steps);
    AppendKeepsSound(c, maxBytes, s.dir, r, steps);
    AppendAdvances(c, maxBytes, s.dir, r, steps);
    var dropped := Overtaken(c, maxBytes, s.dir, r, steps);
    SubsequenceOfParts(dropped, Wholes(c, moved), s.written);
    SubsequenceAppend(Wholes(c, moved), s.written, if WritesLine(c, maxBytes, s.dir, r, steps) then [r] else []);
  }

  lemma Overtaken<R(!new)>(c: Codec<R>, maxBytes: nat, dir: Shadow<R>, r: R, steps: nat) returns (dropped: seq<R>)
    requires dir != []
    ensures Wholes(c, dir) == dropped + Wholes(c, MovedBy(c, maxBytes, dir, r, steps))
  {
    if Admissible(c, maxBytes, r) {
      dropped := RotationDropsOldest(c, dir, Min(steps, Moves(c, maxBytes, FilesOf(c, dir), r)));
    } else {
      dropped := [];
    }
  }

  /**
   * After every run of appends and clears, each cut off anywhere: no file exceeds the limit, the whole
   * records held are some of those written, in order, and reading returns exactly them unless a
   * retained file holds a torn or glued line.
   */
  lemma {:induction false} EveryRun<R(!new)>(c: Codec<R>, maxBytes: nat, n: nat, ops: seq<Operation<R>>)
    requires c.Faithful() && OnePerLine(c)
    ensures var s := Run(c, maxBytes, n, ops);
            && RunFiles(c, maxBytes, n, ops) == FilesOf(c, s.dir) && Invariant(c, maxBytes, s)
            && ReadSlots(c, maxBytes, RunFiles(c, maxBytes, n, ops)) == if Undamaged(c, s.dir) then Some(Wholes(c, s.dir)) else None
  {
    var s := Run(c, maxBytes, n, ops);
    if ops == [] {
      WholesOfNothing(c, n + 1);
    } else {
      var init, op := ops[..|ops| - 1], ops[|ops| - 1];
      var before := Run(c, maxBytes, n, init);
      EveryRun(c, maxBytes, n, init);
      match op {
        case Append(r, steps) =>
          TraceFollowsFiles(c, maxBytes, before.dir, r, steps);
          AppendKeepsInvariant(c, maxBytes, before, r, steps);
        case Clear(steps) =>
          FilesCleared(c, before.dir, steps);
          ClearKeepsInvariant(c, maxBytes, before, steps);
      }
    }
    DirectoryReads(c, maxBytes, s.dir);
  }

  // ---- Clears -----------------------------------------------------------------------------

  /** A clear that is complete, removes no record, or leaves none. */
  ghost predicate Harmless<R(!new)>(c: Codec<R>, dir: Shadow<R>, op: Operation<R>) {
    op.Clear? && op.steps < |dir| ==> Wholes(c, dir[..op.steps]) == [] || Wholes(c, dir[op.steps..]) == []
  }

  /** A cut clear keeps the most recent records exactly when it is harmless. */
  lemma CutClearExactly<R(!new)>(c: Codec<R>, maxBytes: nat, s: State<R>, steps: nat)
    requires s.dir != [] && IsSuffix(Wholes(c, s.dir), s.written) && Distinct(s.written) && steps < |s.dir|
    ensures var after := Step(c, maxBytes, s, Clear(steps));
            IsSuffix(Wholes(c, after.dir), after.written) <==> Harmless(c, s.dir, Clear(steps))
  {
    var left, removed := Wholes(c, s.dir[steps..]), Wholes(c, s.dir[..steps]);
    ClearDropsNewest(c, s.dir, steps);
    SuffixWithout(left, removed, s.written);
  }

  lemma SuffixWithout<T>(left: seq<T>, removed: seq<T>, all: seq<T>)
    requires IsSuffix(left + removed, all) && Distinct(all)
    ensures IsSuffix(left, all) <==> left == [] || removed == []
  {
    if removed == [] {
      assert left + removed == left;
    } else if left != [] {
      var n := |all| - |removed| - 1;
      assert all[|all| - |left + removed|..][|left| - 1] == left[|left| - 1];
      assert all[n] == left[|left| - 1] && all[n] != all[|all| - 1];
      if |left| <= |all| { assert all[|all| - |left|..][|left| - 1] == all[|all| - 1]; }
    }
  }

  lemma StepKeepsSuffix<R(!new)>(c: Codec<R>, maxBytes: nat, s: State<R>, op: Operation<R>)
    requires s.dir != [] && IsSuffix(Wholes(c, s.dir), s.written) && Harmless(c, s.dir, op)
    ensures var after := Step(c, maxBytes, s, op); IsSuffix(Wholes(c, after.dir), after.written)
  {
    match op {
      case Append(r, steps) =>
        var moved := MovedBy(c, maxBytes, s.dir, r, steps);
        AppendAdvances(c, maxBytes, s.dir, r, steps);
        var dropped := Overtaken(c, maxBytes, s.dir, r, steps);
        SuffixOfSuffix(Wholes(c, moved), Wholes(c, s.dir), s.written);
        SuffixAppend(Wholes(c, moved), s.written, if WritesLine(c, maxBytes, s.dir, r, steps) then [r] else []);
      case Clear(steps) =>
        ClearDropsNewest(c, s.dir, steps);
        if steps < |s.dir| && Wholes(c, s.dir[..steps]) == [] {
          assert Wholes(c, s.dir[steps..]) + [] == Wholes(c, s.dir[steps..]);
        } else if steps >= |s.dir| {
          assert s.dir[|s.dir|..] == [];
        }
    }
  }

  ghost predicate HarmlessRun<R(!new)>(c: Codec<R>, maxBytes: nat, n: nat, ops: seq<Operation<R>>) {
    forall i :: 0 <= i < |ops| ==> Harmless(c, Run(c, maxBytes, n, ops[..i]).dir, ops[i])
  }

  /**
   * With complete or harmless clears only, the whole records held are the most recent ones written,
   * without a gap; so whatever can be read is.
   */
  lemma {:induction false} EveryRunKeepsASuffix<R(!new)>(c: Codec<R>, maxBytes: nat, n: nat, ops: seq<Operation<R>>)
    requires HarmlessRun(c, maxBytes, n, ops)
    ensures var s := Run(c, maxBytes, n, ops); IsSuffix(Wholes(c, s.dir), s.written)
  {
    if ops == [] {
      WholesOfNothing(c, n + 1);
    } else {
      var init := ops[..|ops| - 1];
      forall i | 0 <= i < |init| ensures Harmless(c, Run(c, maxBytes, n, init[..i]).dir, init[i]) {
        assert init[..i] == ops[..i] && Harmless(c, Run(c, maxBytes, n, ops[..i]).dir, ops[i]);
      }
      EveryRunKeepsASuffix(c, maxBytes, n, init);
      assert Harmless(c, Run(c, maxBytes, n, init).dir, ops[|ops| - 1]);
      StepKeepsSuffix(c, maxBytes, Run(c, maxBytes, n, init), ops[|ops| - 1]);
    }
  }

  // ---- Whole runs, exactly ----------------------------------------------------------------

  /**
   * How many records had been written when a clear was last cut off so that it removed a record and
   * left an older one; 0 if that has not happened since the last complete clear.
   */
  ghost function LastGap<R(!new)>(c: Codec<R>, maxBytes: nat, n: nat, ops: seq<Operation<R>>): nat {
    if ops == [] then 0
    else
      var init, op := ops[..|ops| - 1], ops[|ops| - 1];
      var before := Run(c, maxBytes, n, init);
      if op.Append? then LastGap(c, maxBytes, n, init)
      else if op.steps >= |before.dir| then 0
      else if Harmless(c, before.dir, op) then LastGap(c, maxBytes, n, init)
      else |before.written|
  }

  /** What is held, when the first `gap` records were written before a gap: recent ones only, or older ones and all since. */
  ghost predicate Sectioned<R>(held: seq<R>, written: seq<R>, gap: nat) {
    && gap <= |written|
    && if |held| <= |written| - gap then IsSuffix(held, written)
       else
         var older := held[..|held| - (|written| - gap)];
         gap > 0 && held == older + written[gap..] && Subsequence(older, written[..gap - 1])
  }

  lemma SectionedDrop<R>(dropped: seq<R>, held: seq<R>, written: seq<R>, gap: nat)
    requires Sectioned(dropped + held, written, gap)
    ensures Sectioned(held, written, gap)
  {
    var all, n := dropped + held, |written| - gap;
    if |all| <= n {
      SuffixOfSuffix(held, all, written);
    } else if |held| <= n {
      assert IsSuffix(held, all);
      assert held == all[|all| - |held|..] == written[gap..][n - |held|..] == written[|written| - |held|..];
    } else {
      var older := all[..|all| - n];
      var kept := held[..|held| - n];
      assert older == dropped + kept;
      SubsequenceOfParts(dropped, kept, written[..gap - 1]);
      assert held[|held| - n..] == all[|all| - n..];
    }
  }

  lemma SectionedAppend<R>(held: seq<R>, written: seq<R>, gap: nat, more: seq<R>)
    requires Sectioned(held, written, gap)
    ensures Sectioned(held + more, written + more, gap)
  {
    var n := |written| - gap;
    if |held| <= n {
      SuffixAppend(held, written, more);
    } else {
      var older := held[..|held| - n];
      assert (held + more)[..|held + more| - (n + |more|)] == older;
      assert (written + more)[gap..] == written[gap..] + more;
      assert (written + more)[..gap - 1] == written[..gap - 1];
      ConcatAssociates(older, written[gap..], more);
    }
  }

  lemma {:induction false} SubsequenceOfItself<R>(s: seq<R>)
    ensures Subsequence(s, s)
  {
    SubsequenceJoin([], [], s);
    assert [] + s == s;
  }

  /** A clear that removes records and leaves older ones: none of those left is the last one written. */
  lemma SectionedCut<R>(left: seq<R>, removed: seq<R>, written: seq<R>, gap: nat)
    requires Sectioned(left + removed, written, gap) && removed != [] && left != []
    ensures Sectioned(left, written, |written|)
  {
    var all, n := left + removed, |written| - gap;
    var last := |written| - 1;
    if |all| <= n {
      var from := |written| - |all|;
      SubsequenceOfItself(written[..last]);
      assert written[..last] == written[..from] + written[from..last];
      assert written[from..last] == left + removed[..|removed| - 1] by {
        assert written[from..] == all && written[from..last] == all[..|all| - 1];
      }
      ConcatAssociates(written[..from], left, removed[..|removed| - 1]);
      SubsequenceOfParts(written[..from] + left, removed[..|removed| - 1], written[..last]);
      SubsequenceOfParts(written[..from], left, written[..last]);
    } else {
      var older := all[..|all| - n];
      if n == 0 {
        assert all == older;
        SubsequenceOfParts(left, removed, written[..gap - 1]);
        assert gap - 1 == last;
      } else {
        var recent := written[gap..last];
        assert written[gap..][..n - 1] == recent;
        assert all[..|all| - 1] == older + recent;
        assert all[..|all| - 1] == left + removed[..|removed| - 1];
        SubsequenceJoin(older, written[..gap - 1], recent);
        SubsequenceOfParts(left, removed[..|removed| - 1], written[..gap - 1] + recent);
        AddOne(left, written[..gap - 1], written[gap - 1], recent);
        assert written[..gap - 1] + [written[gap - 1]] + recent == written[..last];
      }
    }
    assert left[..|left|] == left && written[|written|..] == [] && left + [] == left;
  }

  /** An element more in the middle does no harm. */
  lemma {:induction false} AddOne<R>(a: seq<R>, b: seq<R>, x: R, more: seq<R>)
    requires Subsequence(a, b + more)
    ensures Subsequence(a, b + [x] + more)
    decreases |more|
  {
    if more == [] {
      assert b + more == b && b + [x] + more == b + [x];
      SubsequenceWithin(a, b, [x]);
    } else if a != [] {
      var all, front := b + more, more[..|more| - 1];
      var longer := b + [x] + more;
      assert all[..|all| - 1] == b + front && longer[..|longer| - 1] == b + [x] + front;
      if Subsequence(a, b + front) {
        AddOne(a, b, x, front);
      } else {
        AddOne(a[..|a| - 1], b, x, front);
      }
    }
  }

  lemma StepKeepsSections<R(!new)>(c: Codec<R>, maxBytes: nat, n: nat, ops: seq<Operation<R>>)
    requires ops != []
    requires var before := Run(c, maxBytes, n, ops[..|ops| - 1]);
             Sectioned(Wholes(c, before.dir), before.written, LastGap(c, maxBytes, n, ops[..|ops| - 1]))
    ensures var s := Run(c, maxBytes, n, ops); Sectioned(Wholes(c, s.dir), s.written, LastGap(c, maxBytes, n, ops))
  {
    var init, op := ops[..|ops| - 1], ops[|ops| - 1];
    var before, gap := Run(c, maxBytes, n, init), LastGap(c, maxBytes, n, init);
    match op {
      case Append(r, steps) => AppendKeepsSections(c, maxBytes, before, gap, r, steps);
      case Clear(steps) => ClearKeepsSections(c, maxBytes, before, gap, steps);
    }
  }

  lemma AppendKeepsSections<R(!new)>(c: Codec<R>, maxBytes: nat, s: State<R>, gap: nat, r: R, steps: nat)
    requires s.dir != [] && Sectioned(Wholes(c, s.dir), s.written, gap)
    ensures var after := Step(c, maxBytes, s, Append(r, steps)); Sectioned(Wholes(c, after.dir), after.written, gap)
  {
    var moved := Wholes(c, MovedBy(c, maxBytes, s.dir, r, steps));
    AppendAdvances(c, maxBytes, s.dir, r, steps);
    var dropped := Overtaken(c, maxBytes, s.dir, r, steps);
    SectionedDrop(dropped, moved, s.written, gap);
    SectionedAppend(moved, s.written, gap, if WritesLine(c, maxBytes, s.dir, r, steps) then [r] else []);
  }

  lemma ClearKeepsSections<R(!new)>(c: Codec<R>, maxBytes: nat, s: State<R>, gap: nat, steps: nat)
    requires s.dir != [] && Sectioned(Wholes(c, s.dir), s.written, gap)
    ensures var after := Step(c, maxBytes, s, Clear(steps));
            var next := if steps >= |s.dir| then 0 else if Harmless(c, s.dir, Clear(steps)) then gap else |s.written|;
            Sectioned(Wholes(c, after.dir), after.written, next)
  {
    var k := Min(|s.dir|, steps);
    var left, removed := Wholes(c, s.dir[k..]), Wholes(c, s.dir[..k]);
    ClearDropsNewest(c, s.dir, steps);
    if steps >= |s.dir| {
      assert s.dir[k..] == [];
    } else if removed == [] {
      assert left + [] == left;
    } else if left == [] {
      assert IsSuffix(left, s.written);
    } else {
      SectionedCut(left, removed, s.written, gap);
    }
  }

  lemma {:induction false} EveryRunIsSectioned<R(!new)>(c: Codec<R>, maxBytes: nat, n: nat, ops: seq<Operation<R>>)
    ensures var s := Run(c, maxBytes, n, ops); Sectioned(Wholes(c, s.dir), s.written, LastGap(c, maxBytes, n, ops))
  {
    if ops == [] {
      WholesOfNothing(c, n + 1);
    } else {
      EveryRunIsSectioned(c, maxBytes, n, ops[..|ops| - 1]);
      StepKeepsSections(c, maxBytes, n, ops);
    }
  }

  lemma SuffixIfRecent<R>(held: seq<R>, written: seq<R>, gap: nat)
    requires Sectioned(held, written, gap) && Distinct(written)
    ensures IsSuffix(held, written) <==> |held| <= |written| - gap
  {
    var n := |written| - gap;
    if |held| > n {
      var older, at := held[..|held| - n], |held| - n - 1;
      SubsequenceMembers(older, written[..gap - 1]);
      assert held[at] == older[at] && older[at] in older;
      var j :| 0 <= j < gap - 1 && written[j] == held[at];
      assert held[at] != written[gap - 1];
      if |held| <= |written| { assert written[|written| - |held|..][at] == written[gap - 1]; }
    }
  }

  /**
   * After every run that wrote distinct records: the whole records held are the most recent ones
   * written exactly when none of them is older than the last gap.
   */
  lemma SuffixExactly<R(!new)>(c: Codec<R>, maxBytes: nat, n: nat, ops: seq<Operation<R>>)
    requires Distinct(Run(c, maxBytes, n, ops).written)
    ensures var s := Run(c, maxBytes, n, ops);
            IsSuffix(Wholes(c, s.dir), s.written) <==> |Wholes(c, s.dir)| <= |s.written| - LastGap(c, maxBytes, n, ops)
  {
    EveryRunIsSectioned(c, maxBytes, n, ops);
    var s := Run(c, maxBytes, n, ops);
    SuffixIfRecent(Wholes(c, s.dir), s.written, LastGap(c, maxBytes, n, ops));
  }

  // ---- Damage -----------------------------------------------------------------------------

  /** An append that stops inside its line or writes behind a line that is still open. */
  ghost predicate Damages<R(!new)>(c: Codec<R>, maxBytes: nat, dir: Shadow<R>, op: Operation<R>)
    requires dir != []
  {
    op.Append? &&
    var k, latest := BytesWritten(c, maxBytes, dir, op.record, op.steps), Latest(MovedBy(c, maxBytes, dir, op.record, op.steps));
    k > 0 && (k < |c.encode(op.record)| || latest[|latest| - 1] != [])
  }

  /** A generation that an operation removes: by a rotation if it is the oldest, or by a clear. */
  ghost predicate Removes<R(!new)>(c: Codec<R>, maxBytes: nat, dir: Shadow<R>, op: Operation<R>, g: nat)
    requires dir != []
  {
    match op
    case Append(r, steps) =>
      Admissible(c, maxBytes, r) && MustRotate(c, maxBytes, FilesOf(c, dir), r) && steps > 0 && g == |dir| - 1
    case Clear(steps) => g < steps
  }

  ghost predicate Recovers<R(!new)>(c: Codec<R>, maxBytes: nat, dir: Shadow<R>, op: Operation<R>)
    requires dir != []
  {
    forall g: nat :: g < |dir| && Damaged(c, dir[g]) ==> Removes(c, maxBytes, dir, op, g)
  }

  lemma RotatedUndamaged<R(!new)>(c: Codec<R>, dir: Shadow<R>, steps: nat)
    requires dir != []
    ensures Undamaged(c, Rotated(dir, steps)) <==> forall g: nat :: g < |dir| && Damaged(c, dir[g]) ==> steps > 0 && g == |dir| - 1
  {
    var moved, n := Rotated(dir, steps), |dir| - 1;
    if steps > 0 {
      var cut := n - Min(steps, |dir|);
      assert forall g :: 0 <= g <= cut ==> moved[g] == dir[g];
      assert forall g :: cut < g < n ==> moved[g + 1] == dir[g];
      forall g: nat | g < n && Damaged(c, dir[g]) ensures !Undamaged(c, moved) {
        assert if g <= cut then moved[g] in moved else moved[g + 1] in moved;
      }
      RotatedFrom(dir, steps);
    }
  }

  lemma ClearedUndamaged<R(!new)>(c: Codec<R>, dir: Shadow<R>, steps: nat)
    ensures Undamaged(c, Cleared(dir, steps)) <==> forall g: nat :: g < |dir| && Damaged(c, dir[g]) ==> g < steps
  {
    var after := Cleared(dir, steps);
    assert forall g: nat :: g < |dir| ==> after[g] == if g < steps then None else dir[g];
    forall g: nat | g < |dir| && Damaged(c, dir[g]) && g >= steps ensures !Undamaged(c, after) { assert after[g] in after; }
  }

  lemma ExtendedUndamaged<R(!new)>(c: Codec<R>, maxBytes: nat, dir: Shadow<R>, r: R, k: nat)
    requires c.Faithful() && Sound(c, maxBytes, dir) && c.valid(r)
    ensures var latest := Latest(dir);
            Undamaged(c, dir[0 := Some(Extended(c, latest, r, k))])
            <==> Undamaged(c, dir) && (k == 0 || (k >= |c.encode(r)| && latest[|latest| - 1] == []))
  {
    var latest := Latest(dir);
    var after := dir[0 := Some(Extended(c, latest, r, k))];
    assert dir[0] in dir && GenuineSlot(c, maxBytes, dir[0]);
    ExtendedIsClean(c, latest, r, k);
    assert after[1..] == dir[1..];
    UndamagedFirst(c, dir);
    UndamagedFirst(c, after);
    assert CleanTrace(c, latest) <==> !Damaged(c, dir[0]);
  }

  lemma UndamagedFirst<R(!new)>(c: Codec<R>, dir: Shadow<R>)
    requires dir != []
    ensures Undamaged(c, dir) <==> !Damaged(c, dir[0]) && Undamaged(c, dir[1..])
  {
    assert dir == [dir[0]] + dir[1..];
  }

  /** What one operation does to a directory: exactly when it is undamaged afterwards. */
  lemma DamageExactly<R(!new)>(c: Codec<R>, maxBytes: nat, s: State<R>, op: Operation<R>)
    requires c.Faithful() && Sound(c, maxBytes, s.dir)
    ensures Undamaged(c, Step(c, maxBytes, s, op).dir) <==> Recovers(c, maxBytes, s.dir, op) && !Damages(c, maxBytes, s.dir, op)
  {
    match op {
      case Clear(steps) => ClearedUndamaged(c, s.dir, steps);
      case Append(r, steps) =>
        var moves, moved := Moves(c, maxBytes, FilesOf(c, s.dir), r), MovedBy(c, maxBytes, s.dir, r, steps);
        RotatedUndamaged(c, s.dir, Min(steps, moves));
        RotatedUndamaged(c, s.dir, 0);
        if Admissible(c, maxBytes, r) && steps > moves {
          RotatedFrom(s.dir, Min(steps, moves));
          ExtendedUndamaged(c, maxBytes, moved, r, BytesWritten(c, maxBytes, s.dir, r, steps));
        }
    }
  }

  /**
   * After every run, the next operation leaves a readable log exactly when it removes every damaged
   * file there is and does no damage itself.
   */
  lemma ReadableExactly<R(!new)>(c: Codec<R>, maxBytes: nat, n: nat, ops: seq<Operation<R>>, op: Operation<R>)
    requires c.Faithful() && OnePerLine(c)
    ensures var dir := Run(c, maxBytes, n, ops).dir;
            ReadSlots(c, maxBytes, RunFiles(c, maxBytes, n, ops + [op])).Some?
            <==> Recovers(c, maxBytes, dir, op) && !Damages(c, maxBytes, dir, op)
  {
    var more := ops + [op];
    assert more[..|ops|] == ops && more[|ops|] == op;
    EveryRun(c, maxBytes, n, ops);
    EveryRun(c, maxBytes, n, more);
    DamageExactly(c, maxBytes, Run(c, maxBytes, n, ops), op);
  }

  /** A line is still open exactly when the file does not end with a newline: a caller can look. */
  lemma {:induction false} OpenLineShows<R(!new)>(c: Codec<R>, t: Trace<R>)
    requires c.Faithful() && GenuineTrace(c, t) && t != []
    ensures var file := Text(c, t); t[|t| - 1] != [] <==> file != [] && file[|file| - 1] != NEWLINE
  {
    LineTextIsOneLine(c, t[0]);
    if |t| > 1 { OpenLineShows(c, t[1..]); }
  }

  /** An append that reports success is the newest record of the next read that succeeds. */
  lemma AcceptedIsNewest<R(!new)>(c: Codec<R>, maxBytes: nat, n: nat, ops: seq<Operation<R>>, r: R, steps: nat)
    requires c.Faithful() && OnePerLine(c)
    requires AfterAppend(c, maxBytes, RunFiles(c, maxBytes, n, ops), r, steps).1 == Ok
    ensures var read := ReadSlots(c, maxBytes, RunFiles(c, maxBytes, n, ops + [Append(r, steps)]));
            read.Some? ==> read.value != [] && read.value[|read.value| - 1] == r
  {
    var more := ops + [Append(r, steps)];
    assert more[..|ops|] == ops && more[|ops|] == Append(r, steps);
    EveryRun(c, maxBytes, n, ops);
    EveryRun(c, maxBytes, n, more);
    var dir := Run(c, maxBytes, n, ops).dir;
    AppendAdvances(c, maxBytes, dir, r, steps);
    assert WritesLine(c, maxBytes, dir, r, steps);
  }

  // ---- Runs that go wrong -----------------------------------------------------------------

  ghost function Fresh<R>(n: nat): Shadow<R> { seq(n + 1, _ => None) }

  /** The traces after one append to an empty directory that got `k` bytes onto the disk. */
  lemma FirstAppend<R(!new)>(c: Codec<R>, maxBytes: nat, n: nat, a: R, k: nat)
    requires Admissible(c, maxBytes, a) && 0 < k <= |c.encode(a)| + 1
    ensures Run(c, maxBytes, n, []).dir == Fresh(n)
    ensures var line := [Piece(a, Min(k, |c.encode(a)|))];
            var t := if k <= |c.encode(a)| then [line] else [line, []];
            && Extended(c, [[]], a, k) == t
            && Appended(c, maxBytes, Fresh(n), a, k + 1) == Fresh(n)[0 := Some(t)]
            && BytesWritten(c, maxBytes, Fresh(n), a, k + 1) == k
            && Latest(MovedBy(c, maxBytes, Fresh(n), a, k + 1)) == [[]]
  {
    var p := Piece(a, Min(k, |c.encode(a)|));
    var none: Trace<R> := [[]];
    assert none[..0] == [] && none[0] + [p] == [p] && Continue(none, p) == [] + [[p]];
    assert Active(FilesOf(c, Fresh<R>(n))) == [];
  }

  lemma RunOne<R(!new)>(c: Codec<R>, maxBytes: nat, n: nat, op: Operation<R>)
    ensures Run(c, maxBytes, n, [op]) == Step(c, maxBytes, State(Fresh(n), []), op) && [] + [op] == [op]
  {
    assert [op][..0] == [];
  }

  /** An append cut off inside its line makes the log unreadable. */
  lemma TornRunIsUnreadable<R(!new)>(c: Codec<R>, maxBytes: nat, n: nat, a: R, k: nat)
    requires c.Faithful() && OnePerLine(c) && Admissible(c, maxBytes, a) && 0 < k < |c.encode(a)|
    ensures ReadSlots(c, maxBytes, RunFiles(c, maxBytes, n, [Append(a, k + 1)])).None?
  {
    FirstAppend(c, maxBytes, n, a, k);
    ReadableExactly(c, maxBytes, n, [], Append(a, k + 1));
    RunOne(c, maxBytes, n, Append(a, k + 1));
  }

  /** So does one cut off just before its newline, as soon as another follows that fits behind it. */
  lemma GluedRunIsUnreadable<R(!new)>(c: Codec<R>, maxBytes: nat, n: nat, a: R, b: R)
    requires c.Faithful() && OnePerLine(c) && Admissible(c, maxBytes, a) && Admissible(c, maxBytes, b)
    requires |c.encode(a)| + |c.encode(b)| + 1 <= maxBytes
    ensures ReadSlots(c, maxBytes, RunFiles(c, maxBytes, n, [Append(a, |c.encode(a)| + 1)] + [Append(b, |c.encode(b)| + 3)])).None?
  {
    OpenLineOf(c, maxBytes, n, a);
    OpenLineDamages(c, maxBytes, Run(c, maxBytes, n, [Append(a, |c.encode(a)| + 1)]).dir, b);
    ReadableExactly(c, maxBytes, n, [Append(a, |c.encode(a)| + 1)], Append(b, |c.encode(b)| + 3));
  }

  /** An append that fits behind an open line does damage. */
  lemma OpenLineDamages<R(!new)>(c: Codec<R>, maxBytes: nat, dir: Shadow<R>, b: R)
    requires c.Faithful() && Admissible(c, maxBytes, b) && dir != [] && Latest(dir)[|Latest(dir)| - 1] != []
    requires |Active(FilesOf(c, dir))| + |c.encode(b)| + 1 <= maxBytes
    ensures Damages(c, maxBytes, dir, Append(b, |c.encode(b)| + 3))
  {
    assert MovedBy(c, maxBytes, dir, b, |c.encode(b)| + 3) == dir;
  }

  /** After one append cut off before its newline the line is open and the file as long as it. */
  lemma OpenLineOf<R(!new)>(c: Codec<R>, maxBytes: nat, n: nat, a: R)
    requires c.Faithful() && Admissible(c, maxBytes, a)
    ensures var dir := Run(c, maxBytes, n, [Append(a, |c.encode(a)| + 1)]).dir;
            Latest(dir) == [[Piece(a, |c.encode(a)|)]] && |Active(FilesOf(c, dir))| == |c.encode(a)|
  {
    var op := Append(a, |c.encode(a)| + 1);
    assert c.encode(a) != [];
    FirstAppend(c, maxBytes, n, a, |c.encode(a)|);
    RunOne(c, maxBytes, n, op);
    var start: Trace<R> := [[]];
    TextExtends(c, start, a, |c.encode(a)|);
    assert Text(c, start) == LineText(c, start[0]) == [];
    LatestText(c, Run(c, maxBytes, n, [op]).dir);
  }

  /** A complete clear leaves a readable log whatever happened before. */
  lemma ClearRecovers<R(!new)>(c: Codec<R>, maxBytes: nat, n: nat, ops: seq<Operation<R>>)
    requires c.Faithful() && OnePerLine(c)
    ensures ReadSlots(c, maxBytes, RunFiles(c, maxBytes, n, ops + [Clear(n + 1)])) == Some([])
  {
    var more := ops + [Clear(n + 1)];
    assert more[..|ops|] == ops && more[|ops|] == Clear(n + 1);
    var before := Run(c, maxBytes, n, ops);
    EveryRun(c, maxBytes, n, more);
    ReadableExactly(c, maxBytes, n, ops, Clear(n + 1));
    ClearDropsNewest(c, before.dir, n + 1);
    assert before.dir[n + 1..] == [];
  }

  /** Two generations with one record each, and a clear that stops after the first removal. */
  lemma CutClearOfTwo<R(!new)>(c: Codec<R>, maxBytes: nat, newer: Trace<R>, older: Trace<R>, a: R, b: R)
    requires WholesOf(c, older) == [a] && WholesOf(c, newer) == [b] && a != b
    ensures var after := Step(c, maxBytes, State([Some(newer), Some(older)], [a, b]), Clear(1));
            after == State([None, Some(older)], [a, b]) && Wholes(c, after.dir) == [a] && !IsSuffix([a], [a, b])
  {
    var dir: Shadow<R> := [Some(newer), Some(older)];
    var after: Shadow<R> := [None, Some(older)];
    assert Cleared(dir, 1) == after;
    WholesGap(c, [Some(older)]);
    WholesOne(c, Some(older));
    assert after == [None] + [Some(older)];
    assert [a, b][1..] == [b];
  }

  lemma RunMore<R(!new)>(c: Codec<R>, maxBytes: nat, n: nat, ops: seq<Operation<R>>, op: Operation<R>)
    ensures Run(c, maxBytes, n, ops + [op]) == Step(c, maxBytes, Run(c, maxBytes, n, ops), op)
  {
    assert (ops + [op])[..|ops|] == ops;
  }

  /** Two appends, the second of which has to rotate, fill two generations. */
  lemma FillTwo<R(!new)>(c: Codec<R>, maxBytes: nat, a: R, b: R)
    requires c.Faithful() && Admissible(c, maxBytes, a) && Admissible(c, maxBytes, b)
    requires |c.encode(a)| + |c.encode(b)| + 2 > maxBytes
    ensures Run(c, maxBytes, 1, [Append(a, |c.encode(a)| + 2)] + [Append(b, |c.encode(b)| + 4)])
            == State([Some(Alone(c, b)), Some(Alone(c, a))], [a, b])
  {
    RunOne(c, maxBytes, 1, Append(a, |c.encode(a)| + 2));
    RunMore(c, maxBytes, 1, [Append(a, |c.encode(a)| + 2)], Append(b, |c.encode(b)| + 4));
    AloneHolds(c, maxBytes, a);
    FirstOfTwo(c, maxBytes, a);
    RotatingAppend(c, maxBytes, Alone(c, a), b);
    assert [a] + [b] == [a, b];
  }

  /**
   * Such a run: the second append rotates the first record away, the clear is cut off after one
   * removal, and reading returns the older record although the newer one is gone.
   */
  lemma CutClearReadsOlder<R(!new)>(c: Codec<R>, maxBytes: nat, a: R, b: R)
    requires c.Faithful() && OnePerLine(c) && Admissible(c, maxBytes, a) && Admissible(c, maxBytes, b)
    requires a != b && |c.encode(a)| + |c.encode(b)| + 2 > maxBytes
    ensures var ops := [Append(a, |c.encode(a)| + 2)] + [Append(b, |c.encode(b)| + 4)] + [Clear(1)];
            && ReadSlots(c, maxBytes, RunFiles(c, maxBytes, 1, ops)) == Some([a])
            && Run(c, maxBytes, 1, ops).written == [a, b] && !IsSuffix([a], [a, b])
  {
    var two := [Append(a, |c.encode(a)| + 2)] + [Append(b, |c.encode(b)| + 4)];
    FillTwo(c, maxBytes, a, b);
    RunMore(c, maxBytes, 1, two, Clear(1));
    AloneHolds(c, maxBytes, a);
    AloneHolds(c, maxBytes, b);
    CutClearOfTwo(c, maxBytes, Alone(c, b), Alone(c, a), a, b);
    EveryRun(c, maxBytes, 1, two + [Clear(1)]);
  }

  /** An append that has to rotate moves the only file up and starts a new one. */
  lemma RotatingAppend<R(!new)>(c: Codec<R>, maxBytes: nat, older: Trace<R>, b: R)
    requires Admissible(c, maxBytes, b) && older != []
    requires Text(c, older) != [] && |Text(c, older)| + |c.encode(b)| + 1 > maxBytes
    ensures var dir: Shadow<R> := [Some(older), None];
            && Appended(c, maxBytes, dir, b, |c.encode(b)| + 4) == [Some(Extended(c, [[]], b, |c.encode(b)| + 1)), Some(older)]
            && WritesLine(c, maxBytes, dir, b, |c.encode(b)| + 4)
  {
    var dir: Shadow<R> := [Some(older), None];
    assert MustRotate(c, maxBytes, FilesOf(c, dir), b);
    assert Rotated(dir, 2) == [None, Some(older)];
  }

  ghost function Alone<R(!new)>(c: Codec<R>, a: R): Trace<R> { Extended(c, [[]], a, |c.encode(a)| + 1) }

  lemma AloneHolds<R(!new)>(c: Codec<R>, maxBytes: nat, a: R)
    requires c.Faithful() && Admissible(c, maxBytes, a)
    ensures Alone(c, a) != [] && WholesOf(c, Alone(c, a)) == [a] && CleanTrace(c, Alone(c, a))
    ensures |Text(c, Alone(c, a))| == |c.encode(a)| + 1
  {
    var start: Trace<R> := [[]];
    assert start[1..] == [] && WholesOf(c, start) == [] && Text(c, start) == LineText(c, start[0]) == [];
    FirstAppend(c, maxBytes, 1, a, |c.encode(a)| + 1);
    TextExtends(c, start, a, |c.encode(a)| + 1);
  }

  lemma FirstOfTwo<R(!new)>(c: Codec<R>, maxBytes: nat, a: R)
    requires Admissible(c, maxBytes, a)
    ensures Step(c, maxBytes, State(Fresh(1), []), Append(a, |c.encode(a)| + 2)) == State([Some(Alone(c, a)), None], [a])
  {
    FirstAppend(c, maxBytes, 1, a, |c.encode(a)| + 1);
    var one: Shadow<R> := [Some(Alone(c, a)), None];
    assert Fresh<R>(1)[0 := Some(Alone(c, a))] == one;
    var nothing: seq<R> := [];
    assert nothing + [a] == [a];
  }
}
