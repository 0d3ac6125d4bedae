/** The temporary-file helpers of `libdocument/ev-file-helpers.c`: the
    per-process temporary directory, unique `prefix-N` file names in it,
    the guards that decide whether a file may be deleted, and the argument
    choice of the compression helper. The process-wide statics `dot_dir`,
    `tmp_dir` and `count` are the `Helpers` record; the file system,
    process id and spawned programs are parameters. */
module FileHelpers {
  import opened Glib

  // ---------------------------------------------------------------------
  // Decimal numbers

  function DigitChar(d: nat): (c: char)
    requires d < 10
    ensures '0' <= c <= '9'
  {
    (48 + d) as char
  }

  predicate AllDigits(s: string)
  {
    forall i :: 0 <= i < |s| ==> '0' <= s[i] <= '9'
  }

  /** `%d` or `%u` applied to a non-negative number. */
  function Decimal(n: nat): (s: string)
    ensures |s| >= 1 && AllDigits(s)
    decreases n
  {
    if n < 10 then [DigitChar(n)] else Decimal(n / 10) + [DigitChar(n % 10)]
  }

  /** Different numbers print differently. */
  lemma {:induction false} DecimalInjective(a: nat, b: nat)
    requires Decimal(a) == Decimal(b)
    ensures a == b
    decreases a
  {
    if a >= 10 && b >= 10 {
      var da, db := Decimal(a), Decimal(b);
      assert da[|da| - 1] == DigitChar(a % 10) && db[|db| - 1] == DigitChar(b % 10);
      assert da[..|da| - 1] == Decimal(a / 10) && db[..|db| - 1] == Decimal(b / 10);
      DecimalInjective(a / 10, b / 10);
    }
  }

  /** A name of the form `head-digits` splits at its last dash, so head and
      digits can be read back from it. */
  lemma SplitAtLastDash(x1: string, d1: string, x2: string, d2: string)
    requires x1 + "-" + d1 == x2 + "-" + d2
    requires AllDigits(d1) && AllDigits(d2)
    ensures x1 == x2 && d1 == d2
  {
    if |d1| < |d2| {
      DashBeforeDigits(x1, d1, x2, d2);
      assert false;
    } else if |d2| < |d1| {
      DashBeforeDigits(x2, d2, x1, d1);
      assert false;
    }
    var s := x1 + "-" + d1;
    assert x1 == s[..|x1|];
    assert d1 == s[|x1| + 1..];
  }

  /** In `x1-d1 == x2-d2` with a longer digit string `d2`, the dash of the
      first reading falls on a digit of the second. */
  lemma DashBeforeDigits(x1: string, d1: string, x2: string, d2: string)
    requires |d1| < |d2|
    ensures var s1, s2 := x1 + "-" + d1, x2 + "-" + d2;
      |s1| == |s2| ==> s1[|s1| - |d1| - 1] == '-' && s2[|s2| - |d1| - 1] == d2[|d2| - |d1| - 1]
  {
  }

  // ---------------------------------------------------------------------
  // Directories

  /** `g_build_filename` of a directory and one entry. */
  function Join(dir: string, entry: string): (p: string)
    ensures |p| == |dir| + 1 + |entry| && p[..|dir|] == dir
  {
    dir + "/" + entry
  }

  /** The process-wide statics of the helpers. */
  datatype Helpers = Helpers(dotDir: Option<string>, tmpDir: Option<string>, count: nat)

  const Initial := Helpers(None, None, 0)

  /** What the helpers learn from the environment. */
  datatype Env = Env(home: string, systemTmp: string, pid: nat)

  /** The per-process temporary directory, `<system tmp>/evince-<pid>`. */
  function TmpDirName(env: Env): string
  {
    Join(env.systemTmp, "evince-" + Decimal(env.pid))
  }

  /** The cached temporary directory is the one for this process. */
  predicate HelpersValid(h: Helpers, env: Env)
  {
    h.tmpDir.Some? ==> h.tmpDir.value == TmpDirName(env)
  }

  /** `ev_tmp_dir`: computed on first use and cached until shutdown. */
  function TmpDir(h: Helpers, env: Env): (r: (string, Helpers))
    ensures h.tmpDir.Some? ==> r == (h.tmpDir.value, h)
    ensures h.tmpDir.None? ==> r == (TmpDirName(env), h.(tmpDir := Some(TmpDirName(env))))
    ensures r.1.tmpDir == Some(r.0)
  {
    match h.tmpDir
    case Some(d) => (d, h)
    case None =>
      var d := TmpDirName(env);
      (d, h.(tmpDir := Some(d)))
  }

  /** `ev_dot_dir`: `<home>/.gnome2/evince`, computed on first use. */
  function DotDir(h: Helpers, env: Env): (r: (string, Helpers))
    ensures h.dotDir.Some? ==> r == (h.dotDir.value, h)
    ensures r.1.dotDir == Some(r.0) && r.1.tmpDir == h.tmpDir && r.1.count == h.count
  {
    match h.dotDir
    case Some(d) => (d, h)
    case None =>
      var d := Join(Join(env.home, ".gnome2"), "evince");
      (d, h.(dotDir := Some(d)))
  }

  /** `ev_file_helpers_shutdown`: both cached directories are forgotten;
      the file counter is not reset. */
  function Shutdown(h: Helpers): (r: Helpers)
    ensures r.dotDir.None? && r.tmpDir.None? && r.count == h.count
  {
    h.(dotDir := None, tmpDir := None)
  }

  /** The temporary directory is stable between shutdowns, and the first
      use after a shutdown computes it afresh. */
  lemma TmpDirMemoised(h: Helpers, env: Env)
    requires HelpersValid(h, env)
    ensures TmpDir(h, env).0 == TmpDirName(env)
    ensures var (d, h1) := TmpDir(h, env); TmpDir(h1, env) == (d, h1)
    ensures TmpDir(Shutdown(h), env).0 == TmpDirName(env)
    ensures HelpersValid(TmpDir(h, env).1, env)
  {
  }

  // ---------------------------------------------------------------------
  // Temporary file names

  /** The basename of the `count`-th candidate, `"<prefix>-<count>"`. */
  function Basename(prefix: Option<string>, count: nat): string
  {
    prefix.GetOr("document") + "-" + Decimal(count)
  }

  function Candidate(dir: string, prefix: Option<string>, count: nat): string
  {
    Join(dir, Basename(prefix, count))
  }

  /** Candidates in one directory differ whenever their prefixes or their
      counts do. */
  lemma CandidateInjective(dir: string, p1: Option<string>, k1: nat, p2: Option<string>, k2: nat)
    requires Candidate(dir, p1, k1) == Candidate(dir, p2, k2)
    ensures p1.GetOr("document") == p2.GetOr("document") && k1 == k2
  {
    var x1 := dir + "/" + p1.GetOr("document");
    var x2 := dir + "/" + p2.GetOr("document");
    assert Candidate(dir, p1, k1) == x1 + "-" + Decimal(k1);
    assert Candidate(dir, p2, k2) == x2 + "-" + Decimal(k2);
    SplitAtLastDash(x1, Decimal(k1), x2, Decimal(k2));
    assert p1.GetOr("document") == x1[|dir| + 1..];
    DecimalInjective(k1, k2);
  }

  /** The existing files that are still ahead of the counter. */
  ghost function Remaining(existing: set<string>, dir: string, prefix: Option<string>, count: nat): set<string>
  {
    set f | f in existing && exists k: nat :: k >= count && f == Candidate(dir, prefix, k)
  }

  lemma RemainingShrinks(existing: set<string>, dir: string, prefix: Option<string>, count: nat)
    requires Candidate(dir, prefix, count) in existing
    ensures |Remaining(existing, dir, prefix, count + 1)| < |Remaining(existing, dir, prefix, count)|
  {
    var now, next := Remaining(existing, dir, prefix, count), Remaining(existing, dir, prefix, count + 1);
    var c := Candidate(dir, prefix, count);
    assert c in now;
    forall f | f in next
      ensures f in now - {c}
    {
      var k: nat :| k >= count + 1 && f == Candidate(dir, prefix, k);
      if f == c {
        CandidateInjective(dir, prefix, k, prefix, count);
      }
    }
    assert next <= now - {c};
    assert |now - {c}| == |now| - 1;
    SubsetCardinality(next, now - {c});
  }

  lemma {:induction false} SubsetCardinality<T>(a: set<T>, b: set<T>)
    requires a <= b
    ensures |a| <= |b|
    decreases |b|
  {
    if b != {} {
      var x :| x in b;
      SubsetCardinality(a - {x}, b - {x});
    }
  }

  /** The loop of `ev_tmp_filename` from counter `count` on: the first
      candidate that does not exist. */
  function FirstFree(existing: set<string>, dir: string, prefix: Option<string>, count: nat): (k: nat)
    ensures k >= count && Candidate(dir, prefix, k) !in existing
    ensures forall j :: count <= j < k ==> Candidate(dir, prefix, j) in existing
    decreases |Remaining(existing, dir, prefix, count)|
  {
    if Candidate(dir, prefix, count) !in existing then count
    else
      RemainingShrinks(existing, dir, prefix, count);
      FirstFree(existing, dir, prefix, count + 1)
  }

  /** `ev_tmp_filename`: a name in the temporary directory that does not
      exist in `existing`, the first free candidate from the current
      counter on. The counter ends one past the number used. */
  function TmpFilename(h: Helpers, env: Env, prefix: Option<string>, existing: set<string>)
    : (r: (string, Helpers))
    ensures r.0 !in existing
    ensures r.1.count > h.count
    ensures r.0 == Candidate(TmpDir(h, env).0, prefix, r.1.count - 1)
    ensures forall j :: h.count <= j < r.1.count - 1 ==> Candidate(TmpDir(h, env).0, prefix, j) in existing
    ensures r.1 == TmpDir(h, env).1.(count := r.1.count)
  {
    var (dir, h1) := TmpDir(h, env);
    var k := FirstFree(existing, dir, prefix, h1.count);
    (Candidate(dir, prefix, k), h1.(count := k + 1))
  }

  /** Successive calls never hand out the same name, whatever the prefixes
      and whatever files appeared in between. */
  lemma TmpFilenameFresh(h: Helpers, env: Env, p1: Option<string>, e1: set<string>,
                         p2: Option<string>, e2: set<string>)
    ensures var (n1, h1) := TmpFilename(h, env, p1, e1);
      var (n2, _) := TmpFilename(h1, env, p2, e2);
      n1 != n2
  {
    var (n1, h1) := TmpFilename(h, env, p1, e1);
    var (n2, h2) := TmpFilename(h1, env, p2, e2);
    if n1 == n2 {
      CandidateInjective(TmpDir(h, env).0, p1, h1.count - 1, p2, h2.count - 1);
    }
  }

  // ---------------------------------------------------------------------
  // Unlinking

  function AsciiLower(c: char): char
  {
    if 'A' <= c <= 'Z' then (c as int + 32) as char else c
  }

  /** `g_ascii_strncasecmp (s, prefix, strlen (prefix)) == 0`. */
  predicate StartsWithIgnoringCase(s: string, prefix: string)
  {
    |prefix| <= |s| && forall i :: 0 <= i < |prefix| ==> AsciiLower(s[i]) == AsciiLower(prefix[i])
  }

  /** `ev_tmp_filename_unlink`: whether the file is deleted. Nothing
      happens for NULL or for a file outside the system temporary
      directory; the comparison ignores ASCII case. */
  predicate TmpFilenameUnlink(filename: Option<string>, systemTmp: string)
  {
    filename.Some? && StartsWithIgnoringCase(filename.value, systemTmp)
  }

  /** Every name `ev_tmp_filename` hands out may be deleted again. */
  lemma TmpFilenameUnlinkable(h: Helpers, env: Env, prefix: Option<string>, existing: set<string>)
    requires HelpersValid(h, env)
    ensures TmpFilenameUnlink(Some(TmpFilename(h, env, prefix, existing).0), env.systemTmp)
  {
    var name := TmpFilename(h, env, prefix, existing).0;
    var dir := TmpDirName(env);
    assert name[..|dir|] == dir;
    assert name[..|env.systemTmp|] == env.systemTmp;
  }

  datatype UnlinkAction = NoAction | RefuseNonNative | Delete(uri: string)

  /** `ev_tmp_uri_unlink`: nothing for NULL, a refusal for a URI outside
      the local file system, the deletion of the file otherwise. */
  function TmpUriUnlink(uri: Option<string>, isNative: string -> bool): (r: UnlinkAction)
    ensures uri.None? <==> r == NoAction
    ensures r.RefuseNonNative? <==> uri.Some? && !isNative(uri.value)
    ensures r.Delete? ==> uri == Some(r.uri) && isNative(r.uri)
  {
    match uri
    case None => NoAction
    case Some(u) => if !isNative(u) then RefuseNonNative else Delete(u)
  }

  /** `ev_xfer_uri_simple`: a NULL source fails at once; otherwise the
      result is that of the copy. */
  function XferUriSimple(from: Option<string>, to: string, copy: (string, string) -> bool): (ok: bool)
    ensures from.None? ==> !ok
    ensures from.Some? ==> ok == copy(from.value, to)
  {
    from.Some? && copy(from.value, to)
  }

  // ---------------------------------------------------------------------
  // Compression

  datatype CompressionType = CompressionNone | CompressionBzip2 | CompressionGzip

  /** What `compression_run` finds in its environment. */
  datatype Tools = Tools(
    findProgram: string -> Option<string>,   // g_find_program_in_path
    filenameFromUri: string -> Option<string>,
    mkstemp: string -> Option<string>,       // the file created from a template, if any
    errorSet: bool,                          // spawning or copying reported an error
    filenameToUri: string -> string)

  /** The program run and the URI returned; `argv` is `None` when the
      function returns before spawning. */
  datatype CompressionOutcome = CompressionOutcome(argv: Option<seq<string>>, uri: Option<string>)

  function ProgramFor(t: CompressionType): string
  {
    if t == CompressionBzip2 then "bzip2" else "gzip"
  }

  /** `compression_run`. It gives up early for no compression, a missing
      program, a URI without a local file name or a temporary file it
      cannot create; it runs `bzip2` for bzip2 and `gzip` otherwise, with
      `-c` to compress and `-cd` to decompress, and yields the URI of the
      temporary copy only when no error was reported. */
  function CompressionRun(h: Helpers, env: Env, uri: string, t: CompressionType, compress: bool, tools: Tools)
    : (r: (CompressionOutcome, Helpers))
    ensures t == CompressionNone || tools.findProgram(ProgramFor(t)).None? ==>
      r == (CompressionOutcome(None, None), h)
    ensures r.0.argv.Some? <==>
      && t != CompressionNone
      && tools.findProgram(ProgramFor(t)).Some?
      && tools.filenameFromUri(uri).Some?
      && tools.mkstemp(Join(TmpDir(h, env).0, "evinceXXXXXX")).Some?
    ensures r.0.argv.Some? ==>
      r.0.argv.value == [tools.findProgram(ProgramFor(t)).value,
                         if compress then "-c" else "-cd",
                         tools.filenameFromUri(uri).value]
    ensures r.0.uri.Some? <==> r.0.argv.Some? && !tools.errorSet
    ensures r.0.uri.Some? ==>
      r.0.uri.value == tools.filenameToUri(tools.mkstemp(Join(TmpDir(h, env).0, "evinceXXXXXX")).value)
  {
    if t == CompressionNone then (CompressionOutcome(None, None), h)
    else
      match tools.findProgram(ProgramFor(t))
      case None => (CompressionOutcome(None, None), h)
      case Some(cmd) =>
        match tools.filenameFromUri(uri)
        case None => (CompressionOutcome(None, None), h)
        case Some(filename) =>
          var (dir, h1) := TmpDir(h, env);
          match tools.mkstemp(Join(dir, "evinceXXXXXX"))
          case None => (CompressionOutcome(None, None), h1)
          case Some(dst) =>
            var argv := [cmd, if compress then "-c" else "-cd", filename];
            (CompressionOutcome(Some(argv), if tools.errorSet then None else Some(tools.filenameToUri(dst))), h1)
  }

  /** Compressing and decompressing the same URI make the same choices:
      the same program on the same file into the same temporary copy, the
      same URI back and the same helper state. The command lines differ in
      the option alone. */
  lemma CompressionRunSymmetric(h: Helpers, env: Env, uri: string, t: CompressionType, tools: Tools)
    ensures var c, d := CompressionRun(h, env, uri, t, true, tools), CompressionRun(h, env, uri, t, false, tools);
      && c.1 == d.1 && c.0.uri == d.0.uri
      && (c.0.argv.Some? <==> d.0.argv.Some?)
      && (c.0.argv.Some? ==>
            && |c.0.argv.value| == |d.0.argv.value| == 3
            && c.0.argv.value[0] == d.0.argv.value[0] && c.0.argv.value[2] == d.0.argv.value[2]
            && c.0.argv.value[1] == "-c" && d.0.argv.value[1] == "-cd")
  {
  }

  /** `ev_file_uncompress` and `ev_file_compress`: a NULL URI is refused
      before anything else happens. */
  function CompressFile(h: Helpers, env: Env, uri: Option<string>, t: CompressionType, compress: bool, tools: Tools)
    : (r: (CompressionOutcome, Helpers))
    ensures uri.None? ==> r == (CompressionOutcome(None, None), h)
  {
    match uri
    case None => (CompressionOutcome(None, None), h)
    case Some(u) => CompressionRun(h, env, u, t, compress, tools)
  }
}
