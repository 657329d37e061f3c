/**
 * Compacting a legacy edge sidecar (src/edge_index.rs): derived and blank lines are
 * dropped by writing the other lines to a temporary file and renaming it into place.
 */
module Compaction {
  import opened Wrappers
  import opened Bytes
  import opened Seqs
  import opened ByteLines

  /** What a line is: not UTF-8, blank, an edge of either kind, or anything else. */
  datatype Kind = NotText | Blank | DerivedEdge | OtherEdge | Malformed

  type Classifier = seq<byte> -> Kind

  predicate Retains(kind: Kind) {
    kind.OtherEdge? || kind.Malformed?
  }

  /** The lines a compaction keeps. */
  function Kept(classify: Classifier, lines: seq<seq<byte>>): seq<seq<byte>> {
    Filter(line => Retains(classify(line)), lines)
  }

  function CountKind(classify: Classifier, kind: Kind, lines: seq<seq<byte>>): nat {
    |Filter(line => classify(line) == kind, lines)|
  }

  predicate AllText(classify: Classifier, lines: seq<seq<byte>>) {
    forall i :: 0 <= i < |lines| ==> classify(lines[i]) != NotText
  }

  datatype Stats = Stats(
    existed: bool, applied: bool, bytesBefore: nat, bytesAfter: nat, linesSeen: nat, retainedLines: nat,
    derivedRemoved: nat, explicitRetained: nat, malformedRetained: nat, blankDropped: nat)

  const NO_STATS := Stats(false, false, 0, 0, 0, 0, 0, 0, 0, 0)

  /** The counters for `lines`, each as a count of the lines themselves. */
  function Tally(classify: Classifier, lines: seq<seq<byte>>): Stats {
    NO_STATS.(linesSeen := |lines|,
              retainedLines := |Kept(classify, lines)|,
              bytesAfter := |Encode(Kept(classify, lines))|,
              derivedRemoved := CountKind(classify, DerivedEdge, lines),
              explicitRetained := CountKind(classify, OtherEdge, lines),
              malformedRetained := CountKind(classify, Malformed, lines),
              blankDropped := CountKind(classify, Blank, lines))
  }

  /** One line more. */
  lemma TallyStep(classify: Classifier, lines: seq<seq<byte>>, line: seq<byte>)
    requires classify(line) != NotText
    ensures Kept(classify, lines + [line])
         == if Retains(classify(line)) then Kept(classify, lines) + [line] else Kept(classify, lines)
    ensures Tally(classify, lines + [line]) == Counted(Tally(classify, lines), classify(line), |line|)
  {
    FilterLast(l => Retains(classify(l)), lines, line);
    FilterLast(l => classify(l) == DerivedEdge, lines, line);
    FilterLast(l => classify(l) == OtherEdge, lines, line);
    FilterLast(l => classify(l) == Malformed, lines, line);
    FilterLast(l => classify(l) == Blank, lines, line);
    EncodeLast(Kept(classify, lines), line);
  }

  /** The counter updates of the loop body. */
  function Counted(stats: Stats, kind: Kind, length: nat): Stats {
    var seen := stats.(linesSeen := stats.linesSeen + 1);
    match kind
    case NotText => seen
    case Blank => seen.(blankDropped := seen.blankDropped + 1)
    case DerivedEdge => seen.(derivedRemoved := seen.derivedRemoved + 1)
    case OtherEdge =>
      seen.(explicitRetained := seen.explicitRetained + 1, retainedLines := seen.retainedLines + 1,
            bytesAfter := seen.bytesAfter + length + 1)
    case Malformed =>
      seen.(malformedRetained := seen.malformedRetained + 1, retainedLines := seen.retainedLines + 1,
            bytesAfter := seen.bytesAfter + length + 1)
  }

  /** Every line is counted once: seen = retained + derived + blank, retained = explicit + malformed. */
  lemma {:induction false} CountersAddUp(classify: Classifier, lines: seq<seq<byte>>)
    requires AllText(classify, lines)
    ensures |lines| == |Kept(classify, lines)| + CountKind(classify, DerivedEdge, lines)
                       + CountKind(classify, Blank, lines)
    ensures |Kept(classify, lines)| == CountKind(classify, OtherEdge, lines) + CountKind(classify, Malformed, lines)
  {
    if lines != [] {
      CountersAddUp(classify, lines[..|lines| - 1]);
    }
  }

  /** What the counters of a compaction say about its lines. */
  lemma StatsAddUp(classify: Classifier, lines: seq<seq<byte>>)
    requires AllText(classify, lines)
    ensures var s := Tally(classify, lines);
            && s.linesSeen == |lines|
            && s.linesSeen == s.retainedLines + s.derivedRemoved + s.blankDropped
            && s.retainedLines == s.explicitRetained + s.malformedRetained == |Kept(classify, lines)|
            && s.derivedRemoved == |Filter(line => classify(line) == DerivedEdge, lines)|
            && s.explicitRetained == |Filter(line => classify(line) == OtherEdge, lines)|
            && s.bytesAfter == |Encode(Kept(classify, lines))|
            && !s.existed && !s.applied && s.bytesBefore == 0
  {
    CountersAddUp(classify, lines);
  }

  // ---- compacting again ----

  lemma CountNone(classify: Classifier, kind: Kind, lines: seq<seq<byte>>)
    ensures CountKind(classify, kind, lines) == 0 <==> forall line :: line in lines ==> classify(line) != kind
  {
    FilterMembers(line => classify(line) == kind, lines);
    var found := Filter(line => classify(line) == kind, lines);
    assert found != [] ==> found[0] in found;
  }

  lemma MapMembers(lines: seq<seq<byte>>)
    ensures forall line :: line in MapSeq(StripCr, lines) <==> exists l :: l in lines && line == StripCr(l)
  {
    forall l | l in lines
      ensures StripCr(l) in MapSeq(StripCr, lines)
    {
      var i :| 0 <= i < |lines| && lines[i] == l;
      assert MapSeq(StripCr, lines)[i] == StripCr(l);
    }
  }

  /**
   * What a compaction wrote reads back as the lines it kept, each short of one trailing
   * carriage return; a second compaction removes nothing exactly when none of those
   * is blank or a derived edge without that carriage return.
   */
  lemma CompactedAgain(classify: Classifier, content: seq<byte>)
    ensures var kept := Kept(classify, Lines(content));
            var again := Lines(Encode(kept));
            && again == MapSeq(StripCr, kept)
            && (!Removes(classify, again)
                <==> forall line :: line in kept ==>
                       classify(StripCr(line)) != DerivedEdge && classify(StripCr(line)) != Blank)
  {
    var kept := Kept(classify, Lines(content));
    LinesHoldNoNewline(content);
    FilterMembers(line => Retains(classify(line)), Lines(content));
    LinesEncode(kept);
    CountNone(classify, DerivedEdge, MapSeq(StripCr, kept));
    CountNone(classify, Blank, MapSeq(StripCr, kept));
    MapMembers(kept);
  }

  /** A classifier to which trailing white space means nothing, as blanks and JSON have it. */
  ghost predicate IgnoresTrailingCr(classify: Classifier) {
    forall line :: classify(StripCr(line)) == classify(line)
  }

  lemma SecondRemovesNothing(classify: Classifier, content: seq<byte>)
    requires IgnoresTrailingCr(classify)
    ensures var again := Lines(Encode(Kept(classify, Lines(content))));
            !Removes(classify, again) && Kept(classify, again) == again
  {
    CompactedAgain(classify, content);
    KeptRetains(classify, Lines(content));
    StrippedRetains(classify, Kept(classify, Lines(content)));
    StrippedStays(classify, Kept(classify, Lines(content)));
  }

  lemma StrippedStays(classify: Classifier, lines: seq<seq<byte>>)
    requires IgnoresTrailingCr(classify) && forall line :: line in lines ==> Retains(classify(line))
    ensures forall line :: line in lines ==>
              classify(StripCr(line)) != DerivedEdge && classify(StripCr(line)) != Blank
  {
  }

  lemma KeptRetains(classify: Classifier, lines: seq<seq<byte>>)
    ensures forall line :: line in Kept(classify, lines) ==> Retains(classify(line))
  {
    FilterMembers(line => Retains(classify(line)), lines);
  }

  lemma StrippedRetains(classify: Classifier, lines: seq<seq<byte>>)
    requires IgnoresTrailingCr(classify) && forall line :: line in lines ==> Retains(classify(line))
    ensures Kept(classify, MapSeq(StripCr, lines)) == MapSeq(StripCr, lines)
  {
    MapMembers(lines);
    FilterAll(line => Retains(classify(line)), MapSeq(StripCr, lines));
  }

  // ---- the files ----

  datatype FileName = Sidecar(project: string) | Temp(project: string, stamp: nat, pid: nat)
                    | Backup(project: string, stamp: nat) | Other(name: string)

  type Files = map<FileName, seq<byte>>

  /** Which of the file operations fail; `write` is the number of retained lines written before one. */
  datatype Faults = Faults(stat: bool, create: bool, open: bool, write: Option<nat>, finish: bool,
                           moveAside: bool, moveIn: bool, moveBack: bool, removeTemp: bool)

  /** The original text is still there, in place or as the backup. */
  ghost predicate Safe(files: Files, path: FileName, backup: FileName, original: seq<byte>) {
    || (path in files && files[path] == original)
    || (backup in files && files[backup] == original)
  }

  /** The files other than `name`. */
  function Others(files: Files, name: Option<FileName>): Files {
    if name.Some? then files - {name.value} else files
  }

  /** When a compaction gets to its end. */
  ghost predicate Succeeds(classify: Classifier, lines: seq<seq<byte>>, apply: bool, tempTaken: bool, faults: Faults) {
    && !faults.stat && !faults.open && AllText(classify, lines)
    && (apply ==>
          && !faults.create && !tempTaken && !faults.finish
          && !WriteFails(faults.write, Kept(classify, lines))
          && (Removes(classify, lines) ==> !faults.moveAside && !faults.moveIn))
  }

  function Published(files: Files, path: FileName, temp: FileName, backup: FileName): Files
    requires path in files && temp in files
  {
    (files - {temp})[backup := files[path]][path := files[temp]]
  }

  predicate Removes(classify: Classifier, lines: seq<seq<byte>>) {
    CountKind(classify, DerivedEdge, lines) > 0 || CountKind(classify, Blank, lines) > 0
  }

  predicate WriteFails(failing: Option<nat>, lines: seq<seq<byte>>) {
    failing.Some? && failing.value < |lines|
  }

  ghost predicate TextUpTo(classify: Classifier, lines: seq<seq<byte>>, n: nat)
    requires n <= |lines|
  {
    forall i :: 0 <= i < n ==> classify(lines[i]) != NotText
  }

  /** What a compaction may leave behind, when `path` held a file before. */
  ghost predicate Outcome(classify: Classifier, path: FileName, temp: FileName, backup: FileName, apply: bool,
                          faults: Faults, before: Files, after: Files, r: Result<Stats, ()>)
    requires path != temp && path != backup && temp != backup
  {
    if path !in before then r == Ok(NO_STATS)
    else
      var lines := Lines(before[path]);
      && (r.Ok? <==> Succeeds(classify, lines, apply, temp in before, faults))
      && after - {path, temp, backup} == before - {path, temp, backup}
      && Safe(after, path, backup, before[path])
      && (r.Ok? ==>
            var applied := apply && Removes(classify, lines);
            && r.value == Tally(classify, lines).(existed := true, applied := applied,
                                                  bytesBefore := |before[path]|)
            && (applied ==> after == (before - {temp})[backup := before[path]]
                                                      [path := Encode(Kept(classify, lines))])
            && (!applied ==> Others(after, Some(temp)) == Others(before, Some(temp))))
  }

  class Directory {
    var files: Files
    /** Every state the directory has been in. */
    ghost var trail: set<Files>

    method Write(name: FileName, content: seq<byte>)
      modifies this
      ensures files == old(files)[name := content] && trail == old(trail) + {files}
    {
      files := files[name := content];
      trail := trail + {files};
    }

    method Remove(name: FileName, fails: bool)
      modifies this
      ensures trail == old(trail) + {files}
      ensures files == if fails then old(files) else old(files) - {name}
    {
      if !fails {
        files := files - {name};
      }
      trail := trail + {files};
    }

    /** `rename`: replaces what is at `to`, or fails and changes nothing. */
    method Rename(from: FileName, to: FileName, fails: bool) returns (ok: bool)
      requires from in files && from != to
      modifies this
      ensures trail == old(trail) + {files} && ok == !fails
      ensures files == if fails then old(files) else old(files)[to := old(files)[from]] - {from}
    {
      ok := !fails;
      if ok {
        files := files[to := files[from]] - {from};
      }
      trail := trail + {files};
    }

    /** Nothing but `temp` has changed since `others` and `before`, and the original text is in place. */
    ghost predicate Undisturbed(temp: Option<FileName>, path: FileName, backup: FileName, original: seq<byte>,
                                others: Files, before: set<Files>)
      reads this
    {
      && path in files && files[path] == original && Others(files, temp) == others
      && forall t :: t in trail ==> t in before || Safe(t, path, backup, original)
    }

    /** One line of the loop: it is counted, and a retained one appended to the temporary file, if there is one. */
    method ScanLine(kind: Kind, line: seq<byte>, so: Stats, temp: Option<FileName>, failing: Option<nat>,
                    ghost path: FileName, ghost backup: FileName, ghost original: seq<byte>, ghost others: Files,
                    ghost before: set<Files>)
      returns (stats: Result<Stats, ()>)
      requires temp.Some? ==> temp.value in files && temp.value != path
      requires Undisturbed(temp, path, backup, original, others, before)
      modifies this
      ensures Undisturbed(temp, path, backup, original, others, before)
      ensures stats.Ok? <==> !Stops(kind, so, temp, failing)
      ensures stats.Ok? ==> stats.value == Counted(so, kind, |line|)
      ensures stats.Ok? && temp.Some? ==>
                && temp.value in files
                && files[temp.value] == old(files[temp.value]) + (if Retains(kind) then Terminated(line) else [])
    {
      if kind == NotText {
        return Err(());
      }
      if Retains(kind) && temp.Some? {
        if failing == Some(so.retainedLines) {
          return Err(());
        }
        Write(temp.value, files[temp.value] + Terminated(line));
        assert Safe(files, path, backup, original);
        assert Others(files, temp) == old(Others(files, temp));
      }
      return Ok(Counted(so, kind, |line|));
    }

    /**
     * The read loop: counts every line, and with `temp` writes the retained ones; it
     * fails at the first line that is not text and when a write does.
     */
    method ScanLines(classify: Classifier, content: seq<byte>, temp: Option<FileName>, failing: Option<nat>,
                     ghost path: FileName, ghost backup: FileName)
      returns (stats: Result<Stats, ()>)
      requires temp.Some? ==> temp.value in files && files[temp.value] == [] && temp.value != path
      requires path in files && files[path] == content
      modifies this
      ensures path in files && files[path] == content && Others(files, temp) == old(Others(files, temp))
      ensures forall t :: t in trail ==> t in old(trail) || Safe(t, path, backup, content)
      ensures stats.Ok? ==> stats.value == Tally(classify, Lines(content))
      ensures stats.Ok? && temp.Some? ==>
                temp.value in files && files[temp.value] == Encode(Kept(classify, Lines(content)))
      ensures stats.Ok? <==>
                && AllText(classify, Lines(content))
                && (temp.Some? ==> !WriteFails(failing, Kept(classify, Lines(content))))
    {
      var s := NO_STATS;
      var lines := Lines(content);
      ghost var others, before := Others(files, temp), trail;
      for i := 0 to |lines|
        invariant Undisturbed(temp, path, backup, content, others, before)
        invariant Scanned(classify, lines, i, s, temp, failing)
        invariant temp.Some? ==> temp.value in files && files[temp.value] == Encode(Kept(classify, lines[..i]))
      {
        var line := lines[i];
        var next := ScanLine(classify(line), line, s, temp, failing, path, backup, content, others, before);
        if next.Err? {
          LineStops(classify, lines, i, s, temp, failing);
          return Err(());
        }
        LineScanned(classify, lines, i, s, temp, failing);
        s := next.value;
      }
      assert lines[..|lines|] == lines;
      return Ok(s);
    }

    /** The renames: the old file becomes the backup, the temporary file takes its place. */
    method Publish(path: FileName, temp: FileName, backup: FileName, ghost original: seq<byte>, faults: Faults)
      returns (placed: bool)
      requires path != temp && path != backup && temp != backup
      requires path in files && files[path] == original && temp in files
      modifies this
      ensures placed <==> !faults.moveAside && !faults.moveIn
      ensures placed ==> files == Published(old(files), path, temp, backup)
      ensures files - {path, temp, backup} == old(files) - {path, temp, backup}
      ensures Safe(files, path, backup, original)
      ensures forall t :: t in trail ==> t in old(trail) || Safe(t, path, backup, original)
    {
      var aside := Rename(path, backup, faults.moveAside);
      if !aside {
        return false;
      }
      placed := Rename(temp, path, faults.moveIn);
      if !placed {
        var _ := Rename(backup, path, faults.moveBack);
        Remove(temp, faults.removeTemp);
      }
    }

    /**
     * `compact_legacy_sidecar`. In every state on the way, the original text is at its
     * place or in the backup.
     */
    method CompactLegacySidecar(classify: Classifier, project: string, stamp: nat, pid: nat, apply: bool,
                                faults: Faults)
      returns (r: Result<Stats, ()>)
      modifies this
      ensures Outcome(classify, Sidecar(project), Temp(project, stamp, pid), Backup(project, stamp), apply, faults,
                      old(files), files, r)
      ensures !apply || Sidecar(project) !in old(files) ==> files == old(files)
      ensures Sidecar(project) in old(files) ==> forall t :: t in trail ==>
                t in old(trail) || Safe(t, Sidecar(project), Backup(project, stamp), old(files)[Sidecar(project)])
    {
      var path, temp, backup := Sidecar(project), Temp(project, stamp, pid), Backup(project, stamp);
      if path !in files {
        return Ok(NO_STATS);
      }
      ghost var before := files;
      var original := files[path];
      if faults.stat {
        return Err(());
      }
      if apply {
        if faults.create || temp in files {
          return Err(());
        }
        Write(temp, []);
      }
      if faults.open {
        OthersElsewhere(before, files, path, temp, backup);
        return Err(());
      }
      var scanned := ScanLines(classify, original, if apply then Some(temp) else None, faults.write, path, backup);
      OthersElsewhere(before, files, path, temp, backup);
      if scanned.Err? {
        return Err(());
      }
      var stats := scanned.value.(existed := true, bytesBefore := |original|);
      if !apply || (stats.derivedRemoved == 0 && stats.blankDropped == 0) {
        if apply {
          if faults.finish {
            return Err(());
          }
          Remove(temp, faults.removeTemp);
          OthersElsewhere(before, files, path, temp, backup);
        }
        return Ok(stats);
      }
      if faults.finish {
        return Err(());
      }
      PublishedFrom(before, files, path, temp, backup);
      var placed := Publish(path, temp, backup, original, faults);
      if !placed {
        return Err(());
      }
      return Ok(stats.(applied := true));
    }
  }

  lemma OthersElsewhere(before: Files, after: Files, path: FileName, temp: FileName, backup: FileName)
    requires Others(after, Some(temp)) == Others(before, Some(temp)) || after == before
    ensures after - {path, temp, backup} == before - {path, temp, backup}
    ensures Others(after, Some(temp)) == Others(before, Some(temp))
  {
    assert after - {path, temp, backup} == (after - {temp}) - {path, backup};
    assert before - {path, temp, backup} == (before - {temp}) - {path, backup};
  }

  lemma PublishedFrom(before: Files, after: Files, path: FileName, temp: FileName, backup: FileName)
    requires Others(after, Some(temp)) == Others(before, Some(temp))
    requires path in after && path in before && temp in after && path != temp && path != backup
    ensures before[path] == after[path]
    ensures Published(after, path, temp, backup) == (before - {temp})[backup := before[path]][path := after[temp]]
  {
    assert (after - {temp})[path] == (before - {temp})[path];
  }

  /** A line at which the read loop ends early: it is no text, or writing it fails. */
  predicate Stops(kind: Kind, so: Stats, temp: Option<FileName>, failing: Option<nat>) {
    kind == NotText || (Retains(kind) && temp.Some? && failing == Some(so.retainedLines))
  }

  /** The first `n` lines have been read and counted, and those to be written have been. */
  ghost predicate Scanned(classify: Classifier, lines: seq<seq<byte>>, n: nat, s: Stats, temp: Option<FileName>,
                          failing: Option<nat>)
    requires n <= |lines|
  {
    && TextUpTo(classify, lines, n) && s == Tally(classify, lines[..n])
    && (temp.Some? ==> !WriteFails(failing, Kept(classify, lines[..n])))
  }

  /** Where the loop ends early, not every line is text or not all of them can be written. */
  lemma LineStops(classify: Classifier, lines: seq<seq<byte>>, i: nat, s: Stats, temp: Option<FileName>,
                  failing: Option<nat>)
    requires i < |lines| && Scanned(classify, lines, i, s, temp, failing)
    requires Stops(classify(lines[i]), s, temp, failing)
    ensures !AllText(classify, lines) || (temp.Some? && WriteFails(failing, Kept(classify, lines)))
  {
    if classify(lines[i]) != NotText {
      KeptGrows(classify, lines, i, lines[..i], Kept(classify, lines[..i]));
    }
  }

  /** Where it does not, line `i` joins those before it. */
  lemma LineScanned(classify: Classifier, lines: seq<seq<byte>>, i: nat, s: Stats, temp: Option<FileName>,
                    failing: Option<nat>)
    requires i < |lines| && Scanned(classify, lines, i, s, temp, failing)
    requires !Stops(classify(lines[i]), s, temp, failing)
    ensures Scanned(classify, lines, i + 1, Counted(s, classify(lines[i]), |lines[i]|), temp, failing)
    ensures Encode(Kept(classify, lines[..i + 1]))
         == Encode(Kept(classify, lines[..i])) + (if Retains(classify(lines[i])) then Terminated(lines[i]) else [])
  {
    var kept := Kept(classify, lines[..i]);
    KeptGrows(classify, lines, i, lines[..i], kept);
    StillWrites(classify, kept, lines[i], s, temp, failing);
  }

  lemma StillWrites(classify: Classifier, kept: seq<seq<byte>>, line: seq<byte>, s: Stats, temp: Option<FileName>,
                    failing: Option<nat>)
    requires s.retainedLines == |kept| && !Stops(classify(line), s, temp, failing)
    requires temp.Some? ==> !WriteFails(failing, kept)
    ensures temp.Some? ==> !WriteFails(failing, if Retains(classify(line)) then kept + [line] else kept)
  {
  }

  /** Line `i` joins those before it, and at a retained line there was still one to write. */
  lemma KeptGrows(classify: Classifier, lines: seq<seq<byte>>, i: nat, done: seq<seq<byte>>, kept: seq<seq<byte>>)
    requires i < |lines| && classify(lines[i]) != NotText && TextUpTo(classify, lines, i)
    requires done == lines[..i] && kept == Kept(classify, done)
    ensures TextUpTo(classify, lines, i + 1)
    ensures Kept(classify, lines[..i + 1]) == if Retains(classify(lines[i])) then kept + [lines[i]] else kept
    ensures |Kept(classify, lines[..i + 1])| <= |Kept(classify, lines)|
    ensures Encode(kept + [lines[i]]) == Encode(kept) + Terminated(lines[i])
    ensures Tally(classify, lines[..i + 1]) == Counted(Tally(classify, done), classify(lines[i]), |lines[i]|)
  {
    assert lines[..i + 1] == done + [lines[i]];
    assert lines == lines[..i + 1] + lines[i + 1..];
    FilterConcat(line => Retains(classify(line)), lines[..i + 1], lines[i + 1..]);
    FilterLast(line => Retains(classify(line)), done, lines[i]);
    EncodeLast(kept, lines[i]);
    TallyStep(classify, done, lines[i]);
  }
}
