/**
 The part of a file system the spool depends on: the spool file, the temporary file that
 replaces it, and what a crash may leave of them.

 A file has durable text and pending text behind it. A crash keeps any prefix of the
 pending text. Renaming takes effect at once for the running process, but until the
 directory is synced a crash may bring back a superseded file.
 */
module FileSystem {
  import opened Results

  datatype File = File(durable: string, pending: string) {
    function Contents(): string { durable + pending }

    function Write(text: string): File { File(durable, pending + text) }

    function Sync(): File { File(Contents(), "") }
  }

  const EMPTY_FILE := File("", "")

  datatype Fs = Fs(
    main: Option<File>,
    temp: Option<File>,
    superseded: seq<Option<File>>,  // what a crash may bring back in place of `main`
    aside: seq<string>)             // corrupt spool files that were renamed out of the way

  datatype FileOp =
    | OpenAppend
    | AppendMain(text: string)
    | SyncMain
    | CreateTemp
    | WriteTemp(text: string)
    | SyncTemp
    | RenameTemp
    | SyncDir
    | MoveAside

  function Apply(fs: Fs, op: FileOp): Fs {
    match op
    case OpenAppend => if fs.main.None? then fs.(main := Some(EMPTY_FILE)) else fs
    case AppendMain(text) => if fs.main.None? then fs else fs.(main := Some(fs.main.value.Write(text)))
    case SyncMain => if fs.main.None? then fs else fs.(main := Some(fs.main.value.Sync()))
    case CreateTemp => fs.(temp := Some(EMPTY_FILE))
    case WriteTemp(text) => if fs.temp.None? then fs else fs.(temp := Some(fs.temp.value.Write(text)))
    case SyncTemp => if fs.temp.None? then fs else fs.(temp := Some(fs.temp.value.Sync()))
    case RenameTemp =>
      if fs.temp.None? then fs
      else fs.(main := fs.temp, temp := None, superseded := fs.superseded + [fs.main])
    case SyncDir => fs.(superseded := [])
    case MoveAside =>
      if fs.main.None? then fs
      else fs.(main := None, superseded := fs.superseded + [fs.main], aside := fs.aside + [fs.main.value.Contents()])
  }

  /** An operation that reports an error: a write may have stored a part of its text, the others do nothing. */
  ghost predicate FailedOp(fs: Fs, op: FileOp, fs': Fs) {
    match op
    case AppendMain(text) => exists part :: part <= text && fs' == Apply(fs, AppendMain(part))
    case WriteTemp(text) => exists part :: part <= text && fs' == Apply(fs, WriteTemp(part))
    case _ => fs' == fs
  }

  /** The file system after the first `k` operations of a plan. */
  function After(fs: Fs, plan: seq<FileOp>, k: nat): Fs
    requires k <= |plan|
  {
    if k == 0 then fs else Apply(After(fs, plan, k - 1), plan[k - 1])
  }

  /** Some operation of the plan failed, and the plan was given up there. */
  ghost predicate GaveUp(fs: Fs, plan: seq<FileOp>, fs': Fs) {
    exists k :: 0 <= k < |plan| && FailedOp(After(fs, plan, k), plan[k], fs')
  }

  function MainText(fs: Fs): Option<string> {
    if fs.main.None? then None else Some(fs.main.value.Contents())
  }

  // ---------------------------------------------------------------- crashes

  predicate Survives(file: Option<File>, image: Option<string>) {
    if file.None? then image.None?
    else image.Some? && file.value.durable <= image.value <= file.value.Contents()
  }

  /** A crash may leave the spool file with this text (or absent). */
  ghost predicate CrashImage(fs: Fs, image: Option<string>) {
    Survives(fs.main, image) || exists file | file in fs.superseded :: Survives(file, image)
  }

  /** Nothing is pending: a crash changes nothing. */
  predicate Settled(fs: Fs) {
    fs.superseded == [] && (fs.main.Some? ==> fs.main.value.pending == "")
  }

  /** The file system a restart finds. The temporary file is never read before it is created anew. */
  ghost predicate Crashed(fs: Fs, fs': Fs) {
    Settled(fs') && CrashImage(fs, MainText(fs')) && fs'.aside <= fs.aside
  }

  lemma SyncedSurvives(file: File, image: Option<string>)
    requires file.pending == ""
    ensures Survives(Some(file), image) <==> image == Some(file.durable)
  {
    assert file.Contents() == file.durable;
    if image.Some? && file.durable <= image.value <= file.durable {
      assert image.value == file.durable;
    }
  }

  lemma SettledImage(fs: Fs, image: Option<string>)
    requires Settled(fs)
    ensures CrashImage(fs, image) <==> image == MainText(fs)
  {
    if fs.main.Some? {
      SyncedSurvives(fs.main.value, image);
      assert fs.main.value.Contents() == fs.main.value.durable;
    }
  }

  // ------------------------------------------------------------ the two plans

  function AppendOps(line: string): seq<FileOp> { [OpenAppend, AppendMain(line), AppendMain("\n"), SyncMain] }

  function RewriteOps(text: string): seq<FileOp> {
    [CreateTemp, WriteTemp(text), SyncTemp, RenameTemp, SyncDir]
  }

  /** A rewrite leaves the spool file alone up to the rename, and has replaced all of it from there on. */
  lemma RewriteProgress(fs: Fs, text: string, k: nat)
    requires k <= 5
    ensures var fs' := After(fs, RewriteOps(text), k);
            if k <= 3 then fs'.main == fs.main && fs'.superseded == fs.superseded && fs'.aside == fs.aside
            else fs'.main == Some(File(text, "")) && fs'.aside == fs.aside
                 && fs'.superseded == if k == 4 then fs.superseded + [fs.main] else []
  {
    var plan := RewriteOps(text);
    assert "" + ("" + text) == text;
    assert After(fs, plan, 0) == fs;
    if k > 0 { assert After(fs, plan, 1) == Apply(fs, CreateTemp); }
    if k > 1 { assert After(fs, plan, 2) == Apply(After(fs, plan, 1), WriteTemp(text)); }
    if k > 2 { assert After(fs, plan, 3) == Apply(After(fs, plan, 2), SyncTemp); }
    if k > 3 { assert After(fs, plan, 4) == Apply(After(fs, plan, 3), RenameTemp); }
    if k > 4 { assert After(fs, plan, 5) == Apply(After(fs, plan, 4), SyncDir); }
  }

  lemma RewriteImages(fs: Fs, text: string, k: nat, image: Option<string>)
    requires k <= 5 && Settled(fs)
    requires CrashImage(After(fs, RewriteOps(text), k), image)
    ensures image == MainText(fs) || image == Some(text)
    ensures k == 5 ==> image == Some(text)
  {
    RewriteProgress(fs, text, k);
    SyncedSurvives(File(text, ""), image);
    SettledImage(fs, image);
    assert CrashImage(fs, image) <==> Survives(fs.main, image);
  }

  function TextOrEmpty(image: Option<string>): string { if image.None? then "" else image.value }

  lemma AppendProgress(fs: Fs, line: string, k: nat)
    requires k <= 4 && Settled(fs)
    ensures var fs' := After(fs, AppendOps(line), k);
            var text := TextOrEmpty(MainText(fs));
            && fs'.superseded == [] && fs'.aside == fs.aside
            && (k == 0 ==> fs' == fs)
            && (k > 0 ==> fs'.main == Some(
                                        if k == 1 then File(text, "")
                                        else if k == 2 then File(text, line)
                                        else if k == 3 then File(text, line + "\n")
                                        else File(text + (line + "\n"), "")))
  {
    var plan := AppendOps(line);
    var text := TextOrEmpty(MainText(fs));
    assert After(fs, plan, 0) == fs;
    if k > 0 {
      assert After(fs, plan, 1) == Apply(fs, OpenAppend);
      assert text + "" == text;
      assert fs.main.Some? ==> fs.main.value.Contents() == fs.main.value.durable;
    }
    if k > 1 {
      assert After(fs, plan, 2) == Apply(After(fs, plan, 1), AppendMain(line));
      assert "" + line == line;
    }
    if k > 2 { assert After(fs, plan, 3) == Apply(After(fs, plan, 2), AppendMain("\n")); }
    if k > 3 { assert After(fs, plan, 4) == Apply(After(fs, plan, 3), SyncMain); }
  }

  /** What an append leaves behind at a crash: the old text and a prefix of the new line. */
  lemma AppendImages(fs: Fs, line: string, k: nat, image: Option<string>)
    requires k <= 4 && Settled(fs)
    requires CrashImage(After(fs, AppendOps(line), k), image)
    ensures image.None? ==> MainText(fs).None?
    ensures image.Some? ==> exists part :: part <= line + "\n" && image.value == TextOrEmpty(MainText(fs)) + part
    ensures k == 4 ==> image == Some(TextOrEmpty(MainText(fs)) + (line + "\n"))
  {
    hide After;
    AppendProgress(fs, line, k);
    var fs' := After(fs, AppendOps(line), k);
    var text := TextOrEmpty(MainText(fs));
    if k == 0 {
      SettledImage(fs, image);
      assert text + "" == text;
      assert "" <= line + "\n";
    } else {
      var file := fs'.main.value;
      assert Survives(fs'.main, image);
      if k == 4 {
        SyncedSurvives(file, image);
        assert image.value == text + (line + "\n");
      } else {
        var part := BehindDurable(file, image.value);
        assert part <= line + "\n";
      }
    }
  }

  lemma BehindDurable(file: File, image: string) returns (part: string)
    requires file.durable <= image <= file.Contents()
    ensures part <= file.pending && image == file.durable + part
  {
    part := image[|file.durable|..];
    assert file.Contents()[|file.durable|..] == file.pending;
  }

  /** Every cut of the line is left by some crash, the complete line without its newline among them. */
  lemma EveryCutHappens(fs: Fs, line: string, part: string)
    requires Settled(fs) && part <= line + "\n"
    ensures CrashImage(After(fs, AppendOps(line), 3), Some(TextOrEmpty(MainText(fs)) + part))
    ensures part <= line ==> CrashImage(After(fs, AppendOps(line), 2), Some(TextOrEmpty(MainText(fs)) + part))
  {
    hide After;
    AppendProgress(fs, line, 3);
    AppendProgress(fs, line, 2);
  }
}
