/**
 The drag-and-drop import batch of the main window (`VaultWindow.dropEvent`)
 as a function of its inputs, and the message it ends with.

 The filesystem is a map from path to "is a regular file"; a path that is
 not in the map does not exist. Copying is an oracle that, for a source
 and a destination, either succeeds or fails with an error text; a
 successful copy leaves a regular file at the destination.
 */
module VaultImport {
  import opened PosixPath
  import opened Text

  datatype CopyResult = Copied | CopyFailed(error: string)

  /** A file that could not be copied: its basename and the error text. */
  datatype Failure = Failure(name: string, error: string)

  /** A copy the batch attempted. */
  datatype Attempt = Attempt(source: Path, dest: Path)

  /** The loop's state: the counter, the failure list, the copies attempted, the filesystem. */
  datatype Batch = Batch(copied: nat, failed: seq<Failure>, attempts: seq<Attempt>, fs: map<Path, bool>)

  /** `os.path.isfile`. */
  predicate IsFile(fs: map<Path, bool>, p: Path) {
    p in fs && fs[p]
  }

  /** `os.path.join(vault_dir, os.path.basename(source))`. */
  function Destination(vault: Path, source: Path): Path {
    Join(vault, Basename(source))
  }

  /** One iteration of the loop over the dropped paths. */
  function ImportOne(b: Batch, vault: Path, p: Path, copy: (Path, Path) -> CopyResult): Batch {
    if p == "" || !IsFile(b.fs, p) then b
    else
      var dest := Destination(vault, p);
      match copy(p, dest)
      case Copied => Batch(b.copied + 1, b.failed, b.attempts + [Attempt(p, dest)], b.fs[dest := true])
      case CopyFailed(e) => Batch(b.copied, b.failed + [Failure(Basename(p), e)], b.attempts + [Attempt(p, dest)], b.fs)
  }

  /** The loop over all dropped paths, in drop order. */
  function Import(vault: Path, paths: seq<Path>, fs: map<Path, bool>, copy: (Path, Path) -> CopyResult): Batch
    decreases |paths|
  {
    if paths == [] then Batch(0, [], [], fs)
    else ImportOne(Import(vault, paths[..|paths| - 1], fs, copy), vault, paths[|paths| - 1], copy)
  }

  /** `Import` over one more path is one more `ImportOne`. */
  lemma ImportPrefixStep(vault: Path, paths: seq<Path>, i: nat, fs: map<Path, bool>, copy: (Path, Path) -> CopyResult)
    requires i < |paths|
    ensures Import(vault, paths[..i + 1], fs, copy) == ImportOne(Import(vault, paths[..i], fs, copy), vault, paths[i], copy)
  {
    assert paths[..i + 1][..i] == paths[..i];
  }

  /** The copies among `attempts` that failed, as the failure list records them. */
  function FailuresOf(attempts: seq<Attempt>, copy: (Path, Path) -> CopyResult): seq<Failure>
    decreases |attempts|
  {
    if attempts == [] then []
    else
      var a := attempts[|attempts| - 1];
      FailuresOf(attempts[..|attempts| - 1], copy) +
        (match copy(a.source, a.dest) case Copied => [] case CopyFailed(e) => [Failure(Basename(a.source), e)])
  }

  /** The number of copies among `attempts` that succeeded. */
  function SuccessesOf(attempts: seq<Attempt>, copy: (Path, Path) -> CopyResult): nat
    decreases |attempts|
  {
    if attempts == [] then 0
    else
      var a := attempts[|attempts| - 1];
      SuccessesOf(attempts[..|attempts| - 1], copy) + (if copy(a.source, a.dest).Copied? then 1 else 0)
  }

  /** One step extends the attempt list by at most the one copy it makes. */
  lemma ImportOneExtends(b: Batch, vault: Path, p: Path, copy: (Path, Path) -> CopyResult)
    ensures (p == "" || !IsFile(b.fs, p)) <==> ImportOne(b, vault, p, copy) == b
    ensures var b1 := ImportOne(b, vault, p, copy);
      || b1 == b
      || (&& |b1.attempts| == |b.attempts| + 1
          && b1.attempts[..|b.attempts|] == b.attempts
          && b1.attempts[|b.attempts|] == Attempt(p, Destination(vault, p))
          && (copy(p, Destination(vault, p)).Copied? ==>
                b1.copied == b.copied + 1 && b1.failed == b.failed)
          && (copy(p, Destination(vault, p)).CopyFailed? ==>
                b1.copied == b.copied &&
                b1.failed == b.failed + [Failure(Basename(p), copy(p, Destination(vault, p)).error)]))
  {
  }

  /**
   Every attempted copy is counted exactly once, as a success or as a
   failure, and failures are recorded with the source's basename and the
   error, in the order the copies were attempted.
   */
  lemma {:induction false} ImportAccounting(vault: Path, paths: seq<Path>, fs: map<Path, bool>,
                                            copy: (Path, Path) -> CopyResult)
    ensures var b := Import(vault, paths, fs, copy);
      && b.copied + |b.failed| == |b.attempts|
      && b.copied == SuccessesOf(b.attempts, copy)
      && b.failed == FailuresOf(b.attempts, copy)
    decreases |paths|
  {
    if paths != [] {
      var init := paths[..|paths| - 1];
      ImportAccounting(vault, init, fs, copy);
      ImportDestinations(vault, init, fs, copy);
      ImportOneExtends(Import(vault, init, fs, copy), vault, paths[|paths| - 1], copy);
    }
  }

  /** Each destination is the source's basename joined onto the vault directory. */
  lemma {:induction false} ImportDestinations(vault: Path, paths: seq<Path>, fs: map<Path, bool>,
                                              copy: (Path, Path) -> CopyResult)
    ensures forall i :: 0 <= i < |Import(vault, paths, fs, copy).attempts| ==>
      Import(vault, paths, fs, copy).attempts[i].dest == Destination(vault, Import(vault, paths, fs, copy).attempts[i].source)
    decreases |paths|
  {
    if paths != [] {
      var init := paths[..|paths| - 1];
      ImportDestinations(vault, init, fs, copy);
      var b0 := Import(vault, init, fs, copy);
      ImportOneExtends(b0, vault, paths[|paths| - 1], copy);
      var b := Import(vault, paths, fs, copy);
      if b != b0 {
        forall i | 0 <= i < |b.attempts| ensures b.attempts[i].dest == Destination(vault, b.attempts[i].source) {
          if i < |b0.attempts| {
            assert b.attempts[i] == b.attempts[..|b0.attempts|][i] == b0.attempts[i];
          } else {
            assert i == |b0.attempts|;
            assert b.attempts[i] == Attempt(paths[|paths| - 1], Destination(vault, paths[|paths| - 1]));
          }
        }
      }
    }
  }

  /** The copy goes directly into the vault directory and keeps the source's file name. */
  ghost predicate LandsIn(vault: Path, a: Attempt)
    requires vault != ""
  {
    a.dest == AsDirectory(vault) + Basename(a.source) && Basename(a.dest) == Basename(a.source)
  }

  /**
   With a non-empty vault directory, every copy lands directly inside it,
   under the source's own file name.
   */
  lemma ImportLandsInVault(vault: Path, paths: seq<Path>, fs: map<Path, bool>,
                           copy: (Path, Path) -> CopyResult)
    requires vault != ""
    ensures forall i :: 0 <= i < |Import(vault, paths, fs, copy).attempts| ==>
      LandsIn(vault, Import(vault, paths, fs, copy).attempts[i])
  {
    ImportDestinations(vault, paths, fs, copy);
    var b := Import(vault, paths, fs, copy);
    forall i | 0 <= i < |b.attempts| ensures LandsIn(vault, b.attempts[i]) {
      var a := b.attempts[i];
      JoinKeepsBasename(vault, a.source);
    }
  }

  /** The batch only ever adds regular files to the filesystem. */
  lemma {:induction false} ImportOnlyAddsFiles(vault: Path, paths: seq<Path>, fs: map<Path, bool>,
                                               copy: (Path, Path) -> CopyResult)
    ensures forall p :: IsFile(fs, p) ==> IsFile(Import(vault, paths, fs, copy).fs, p)
    ensures forall i :: 0 <= i < |Import(vault, paths, fs, copy).attempts| ==>
              var a := Import(vault, paths, fs, copy).attempts[i];
              copy(a.source, a.dest).Copied? ==> IsFile(Import(vault, paths, fs, copy).fs, a.dest)
    decreases |paths|
  {
    if paths != [] {
      var init := paths[..|paths| - 1];
      ImportOnlyAddsFiles(vault, init, fs, copy);
      var b0 := Import(vault, init, fs, copy);
      var b := Import(vault, paths, fs, copy);
      if b != b0 {
        assert b.attempts[..|b.attempts| - 1] == b0.attempts;
        forall i | 0 <= i < |b.attempts|
          ensures var a := b.attempts[i]; copy(a.source, a.dest).Copied? ==> IsFile(b.fs, a.dest)
        {
          if i < |b0.attempts| { assert b.attempts[i] == b0.attempts[i]; }
        }
      }
    }
  }

  /**
   When every dropped path is a regular file, every one of them is
   attempted, in drop order, whatever earlier copies did: a failure never
   stops the batch.
   */
  lemma {:induction false} ImportAttemptsEveryFile(vault: Path, paths: seq<Path>, fs: map<Path, bool>,
                                                   copy: (Path, Path) -> CopyResult)
    requires forall i :: 0 <= i < |paths| ==> paths[i] != "" && IsFile(fs, paths[i])
    ensures |Import(vault, paths, fs, copy).attempts| == |paths|
    ensures forall i :: 0 <= i < |paths| ==> Import(vault, paths, fs, copy).attempts[i].source == paths[i]
    decreases |paths|
  {
    if paths != [] {
      var init := paths[..|paths| - 1];
      ImportAttemptsEveryFile(vault, init, fs, copy);
      ImportOnlyAddsFiles(vault, init, fs, copy);
      var b0 := Import(vault, init, fs, copy);
      assert IsFile(b0.fs, paths[|paths| - 1]);
      var b := Import(vault, paths, fs, copy);
      forall i | 0 <= i < |paths| ensures b.attempts[i].source == paths[i] {
        if i < |init| { assert b.attempts[i] == b0.attempts[i]; assert init[i] == paths[i]; }
      }
    }
  }

  /** The source of each attempt, in order. */
  function Sources(attempts: seq<Attempt>): (r: seq<Path>)
    ensures |r| == |attempts|
    ensures forall i :: 0 <= i < |attempts| ==> r[i] == attempts[i].source
    decreases |attempts|
  {
    if attempts == [] then [] else Sources(attempts[..|attempts| - 1]) + [attempts[|attempts| - 1].source]
  }

  /** The path at position `i` of the drop passes the loop's filter when its turn comes. */
  predicate PassesAt(vault: Path, paths: seq<Path>, i: nat, fs: map<Path, bool>, copy: (Path, Path) -> CopyResult)
    requires i < |paths|
  {
    paths[i] != "" && IsFile(Import(vault, paths[..i], fs, copy).fs, paths[i])
  }

  /** The dropped paths that pass the filter at their turn, in drop order. */
  function Passing(vault: Path, paths: seq<Path>, fs: map<Path, bool>, copy: (Path, Path) -> CopyResult): seq<Path>
    decreases |paths|
  {
    if paths == [] then []
    else
      Passing(vault, paths[..|paths| - 1], fs, copy) +
        (if PassesAt(vault, paths, |paths| - 1, fs, copy) then [paths[|paths| - 1]] else [])
  }

  /** Only non-empty dropped paths pass the filter. */
  lemma {:induction false} PassingFromDrop(vault: Path, paths: seq<Path>, fs: map<Path, bool>,
                                           copy: (Path, Path) -> CopyResult)
    ensures forall x :: x in Passing(vault, paths, fs, copy) ==> x != "" && x in paths
    decreases |paths|
  {
    if paths != [] {
      var init := paths[..|paths| - 1];
      PassingFromDrop(vault, init, fs, copy);
      assert forall x :: x in init ==> x in paths;
    }
  }

  /**
   The copies attempted are exactly those of the dropped paths that are
   non-empty and a regular file when their turn comes, in drop order.
   */
  lemma {:induction false} ImportAttemptsPassing(vault: Path, paths: seq<Path>, fs: map<Path, bool>,
                                                 copy: (Path, Path) -> CopyResult)
    ensures Sources(Import(vault, paths, fs, copy).attempts) == Passing(vault, paths, fs, copy)
    decreases |paths|
  {
    if paths != [] {
      var init, last := paths[..|paths| - 1], paths[|paths| - 1];
      ImportAttemptsPassing(vault, init, fs, copy);
      var b0 := Import(vault, init, fs, copy);
      var b := Import(vault, paths, fs, copy);
      ImportOneExtends(b0, vault, last, copy);
      if b != b0 {
        assert b.attempts == b0.attempts + [Attempt(last, Destination(vault, last))];
        assert b.attempts[..|b.attempts| - 1] == b0.attempts;
      }
    }
  }

  /** Copied plus failed is the number of dropped paths that pass the filter at their turn. */
  lemma ImportCountsPassing(vault: Path, paths: seq<Path>, fs: map<Path, bool>, copy: (Path, Path) -> CopyResult)
    ensures Import(vault, paths, fs, copy).copied + |Import(vault, paths, fs, copy).failed| ==
            |Passing(vault, paths, fs, copy)|
  {
    ImportAccounting(vault, paths, fs, copy);
    ImportAttemptsPassing(vault, paths, fs, copy);
  }

  /**
   Every non-empty dropped path that is a regular file before the drop is
   attempted, whatever else the drop holds and whatever earlier copies did.
   */
  lemma {:induction false} ImportAttemptsInitialFiles(vault: Path, paths: seq<Path>, fs: map<Path, bool>,
                                                      copy: (Path, Path) -> CopyResult)
    ensures forall i :: 0 <= i < |paths| && paths[i] != "" && IsFile(fs, paths[i]) ==>
              paths[i] in Sources(Import(vault, paths, fs, copy).attempts)
    decreases |paths|
  {
    if paths != [] {
      var init, last := paths[..|paths| - 1], paths[|paths| - 1];
      ImportAttemptsInitialFiles(vault, init, fs, copy);
      ImportOnlyAddsFiles(vault, init, fs, copy);
      var b0 := Import(vault, init, fs, copy);
      var b := Import(vault, paths, fs, copy);
      ImportOneExtends(b0, vault, last, copy);
      var s0, s := Sources(b0.attempts), Sources(b.attempts);
      forall i | 0 <= i < |paths| && paths[i] != "" && IsFile(fs, paths[i]) ensures paths[i] in s {
        if i < |init| {
          assert init[i] == paths[i];
          var j :| 0 <= j < |s0| && s0[j] == paths[i];
          if b != b0 {
            assert b.attempts[j] == b.attempts[..|b0.attempts|][j];
          }
          assert s[j] == paths[i];
        } else {
          assert IsFile(b0.fs, last);
          assert s[|b0.attempts|] == last;
        }
      }
    }
  }

  /** A drop in which no path is a regular file copies nothing, fails nothing and changes nothing. */
  lemma {:induction false} ImportSkipsNonFiles(vault: Path, paths: seq<Path>, fs: map<Path, bool>,
                                               copy: (Path, Path) -> CopyResult)
    requires forall i :: 0 <= i < |paths| ==> paths[i] == "" || !IsFile(fs, paths[i])
    ensures Import(vault, paths, fs, copy) == Batch(0, [], [], fs)
    decreases |paths|
  {
    if paths != [] {
      ImportSkipsNonFiles(vault, paths[..|paths| - 1], fs, copy);
    }
  }

  /** The destination of "/home/u/a.txt" in the vault "/vault". */
  lemma ExampleDestination()
    ensures Basename("/home/u/a.txt") == "a.txt"
    ensures Destination("/vault", "/home/u/a.txt") == "/vault/a.txt"
  {
    assert "/home/u/" + "a.txt" == "/home/u/a.txt";
    BasenameAfterSlash("/home/u/", "a.txt");
    JoinDirectlyUnder("/vault", "a.txt");
  }

  /**
   A drop of one regular file and one path that is not a file into
   "/vault", with a copy that succeeds: one copy, to "/vault/a.txt", and
   the other path is skipped.
   */
  lemma DropExample(copy: (Path, Path) -> CopyResult)
    requires copy("/home/u/a.txt", "/vault/a.txt") == Copied
    ensures var fs := map["/home/u/a.txt" := true, "/home/u" := false];
      Import("/vault", ["/home/u/a.txt", "/home/u"], fs, copy) ==
        Batch(1, [], [Attempt("/home/u/a.txt", "/vault/a.txt")], fs["/vault/a.txt" := true])
  {
    var fs := map["/home/u/a.txt" := true, "/home/u" := false];
    var paths := ["/home/u/a.txt", "/home/u"];
    ExampleDestination();
    assert paths[..1] == ["/home/u/a.txt"] && paths[..1][..0] == [];
    var b0 := Import("/vault", paths[..1][..0], fs, copy);
    assert b0 == Batch(0, [], [], fs);
    var b1 := ImportOne(b0, "/vault", "/home/u/a.txt", copy);
    assert b1 == Batch(1, [], [Attempt("/home/u/a.txt", "/vault/a.txt")], fs["/vault/a.txt" := true]);
    assert Import("/vault", paths[..1], fs, copy) == b1;
    assert !IsFile(b1.fs, "/home/u");
  }

  // ---------------------------------------------------------------------
  // The message a drop ends with.

  datatype Severity = Information | Warning | Critical

  /** A message box: `QMessageBox.information`, `.warning` or `.critical`, with its title and text. */
  datatype Notice = Notice(severity: Severity, title: string, text: string)

  /** The warning for a drop before any vault folder has been chosen. */
  const NoVaultNotice: Notice := Notice(Warning, "提示", "请先选择保险箱文件夹")

  /** One line of the failure list: `"{name}: {error}"`. */
  function FailureLine(f: Failure): string {
    f.name + ": " + f.error
  }

  function FailureLinesOf(failed: seq<Failure>): (lines: seq<string>)
    ensures |lines| == |failed|
    ensures forall i :: 0 <= i < |failed| ==> lines[i] == FailureLine(failed[i])
  {
    if failed == [] then [] else [FailureLine(failed[0])] + FailureLinesOf(failed[1..])
  }

  /** The failure lines joined by newlines. */
  function FailureList(failed: seq<Failure>): string {
    if failed == [] then "" else JoinWith(FailureLinesOf(failed), '\n')
  }

  /** The message at the end of a batch, chosen by the counter and the failure list. */
  function Outcome(copied: nat, failed: seq<Failure>): (n: Notice)
    // four outcomes, told apart by severity and title
    ensures n.severity == Information <==> copied > 0 && failed == []
    ensures n.severity == Critical <==> copied == 0 && failed != []
    ensures n.severity == Warning && n.title == "部分文件复制失败" <==> copied > 0 && failed != []
    ensures n.severity == Warning && n.title == "提示" <==> copied == 0 && failed == []
    // the text gives the count whenever something was copied
    ensures copied > 0 && failed == [] ==> n.text == "已成功复制 " + Decimal(copied) + " 个文件到保险箱"
    ensures copied > 0 && failed != [] ==>
              n.text == "成功复制 " + Decimal(copied) + " 个文件\n\n失败的文件：\n" + FailureList(failed)
    // and lists every failure, one per line, whenever something failed
    ensures copied == 0 && failed != [] ==> n.text == "所有文件复制失败：\n" + FailureList(failed)
    ensures copied == 0 && failed == [] ==> n.text == "没有有效的文件被拖入"
  {
    if copied > 0 then
      if failed != [] then
        Notice(Warning, "部分文件复制失败", "成功复制 " + Decimal(copied) + " 个文件\n\n失败的文件：\n" + FailureList(failed))
      else
        Notice(Information, "成功", "已成功复制 " + Decimal(copied) + " 个文件到保险箱")
    else if failed != [] then
      Notice(Critical, "复制失败", "所有文件复制失败：\n" + FailureList(failed))
    else
      Notice(Warning, "提示", "没有有效的文件被拖入")
  }

  /** A failure whose name and error hold no newline gives a line without one. */
  lemma FailureLineOnOneLine(f: Failure)
    requires '\n' !in f.name && '\n' !in f.error
    ensures '\n' !in FailureLine(f)
  {
  }

  /** When no name or error contains a newline, the failure list splits back into one line per failure. */
  lemma FailureListSplits(failed: seq<Failure>)
    requires failed != []
    requires forall i :: 0 <= i < |failed| ==> '\n' !in failed[i].name && '\n' !in failed[i].error
    ensures Split(FailureList(failed), '\n') == FailureLinesOf(failed)
  {
    var lines := FailureLinesOf(failed);
    forall i | 0 <= i < |lines| ensures '\n' !in lines[i] {
      FailureLineOnOneLine(failed[i]);
    }
    SplitJoin(lines, '\n');
  }
}
