/**
 * The stateful shell of `PhpSandbox`: the script last prepared, the temporary
 * artifacts the three entry points write into the sandbox directory and
 * remove again, and the output buffers `run` juggles around the snippet.
 *
 * Token generation, the PHP process, the snippet's evaluation and the error
 * log classifier are not modelled: each entry point takes what they produce
 * as parameters.
 */
module Sandbox {
  import opened Wrappers
  import opened PhpStrings
  import opened CodePreparer

  /** `DIRECTORY_SEPARATOR` on the POSIX hosts `pcntl_fork` runs on. */
  const Separator: string := "/"
  const SandboxDirName: string := "/gaya_php_sandbox"
  const ScriptExt: string := ".php"
  const LogExt: string := ".log"

  /** `<dir>/<token><ext>`: where an entry point keeps its temporary artifact. */
  function ArtifactPath(dir: string, token: string, ext: string): string {
    dir + Separator + token + ext
  }

  /** PHP's truth value of a string: everything but `""` and `"0"` is true. */
  predicate PhpTruthy(s: string): (b: bool)
    ensures b <==> |s| > 1 || (|s| == 1 && s[0] != '0')
  {
    s != "" && s != "0"
  }

  /**
   * How the included snippet ended, with what it echoed before it did: it
   * completed, it threw an `\Exception` (which `run` catches), or it ended
   * with something `catch (\Exception)` does not catch: an `\Error` such as
   * a `ParseError` or a call to an undefined function, or `exit`.
   */
  datatype Evaluation =
    | Completed(output: string)
    | Threw(output: string, exception: string)
    | Escaped(output: string, error: string)

  /** What the standalone PHP process wrote to its two output streams. */
  datatype ProcessResult = Exited(stdout: string, stderr: string)

  /** Why an entry point throws. */
  datatype Failure =
    | DirectoryUnavailable   // 'Unable to create the PHP Sandbox directory'
    | Rethrown(exception: string)   // the `\Exception` the snippet threw inside `run`
    | Uncaught(error: string)   // the `\Error` or `exit` that ended the snippet inside `run`
    | ErrorLogged(exception: string)   // what the error log classifier threw
    | CouldNotFork   // 'Could not fork'

  // ---------------------------------------------------------------------------
  // The output-buffer protocol of `run`, as a function of the buffer stack
  // (innermost buffer last).

  /** What `run` saves before it starts capturing: the innermost buffer, when it is non-empty. */
  function SavedBuffer(buffers: seq<string>): (r: Option<string>)
    ensures r.Some? <==> |buffers| > 0 && buffers[|buffers| - 1] != ""
    ensures r.Some? ==> r.value == buffers[|buffers| - 1]
  {
    if |buffers| > 0 && buffers[|buffers| - 1] != "" then Some(buffers[|buffers| - 1]) else None
  }

  /** The buffer stack after `run` has evaluated a snippet that ended as `e`. */
  function BuffersAfterRun(buffers: seq<string>, e: Evaluation): (r: seq<string>)
    ensures |buffers| > 0 ==> buffers[..|buffers| - 1] <= r
    ensures !e.Completed? ==> |r| > 0 && r[|r| - 1] == e.output
    ensures e.Completed? ==> |r| <= |buffers|
  {
    var saved := SavedBuffer(buffers);
    var outer := if saved.Some? then buffers[..|buffers| - 1] else buffers;
    if !e.Completed? then outer + [e.output]
    else if saved.Some? && PhpTruthy(saved.value) then outer + [saved.value]
    else outer
  }

  /**
   * The files after `run` has evaluated a snippet that ended as `e`: the
   * script at `path` is removed, unless the snippet ended with something
   * `catch (\Exception)` lets through, in which case it stays behind.
   */
  function FilesAfterRun(files: map<string, string>, path: string, script: string, e: Evaluation): (r: map<string, string>)
    ensures path in r <==> e.Escaped?
    ensures path in r ==> r[path] == script
    ensures forall p :: p != path ==> (p in r <==> p in files)
    ensures forall p :: p != path && p in r ==> r[p] == files[p]
  {
    if e.Escaped? then files[path := script] else files - {path}
  }

  /** What `run` returns or throws for a snippet that ended as `e`. */
  function RunResult(e: Evaluation): (r: Result<string, Failure>)
    ensures r.Ok? <==> e.Completed?
    ensures r.Ok? ==> r.value == e.output
    ensures e.Threw? ==> r == Err(Rethrown(e.exception))
    ensures e.Escaped? ==> r == Err(Uncaught(e.error))
  {
    match e
    case Completed(output) => Ok(output)
    case Threw(_, exception) => Err(Rethrown(exception))
    case Escaped(_, error) => Err(Uncaught(error))
  }

  /**
   * When the snippet completes, the contents of the caller's buffers come
   * back as they were, except that an innermost buffer holding exactly `"0"` is lost: it is
   * saved, but the saved copy is false to PHP and is not put back.
   */
  lemma RunRestoresBuffers(buffers: seq<string>, output: string)
    ensures BuffersAfterRun(buffers, Completed(output)) == buffers <==>
      !(|buffers| > 0 && buffers[|buffers| - 1] == "0")
    ensures |buffers| > 0 && buffers[|buffers| - 1] == "0" ==>
      BuffersAfterRun(buffers, Completed(output)) == buffers[..|buffers| - 1]
  {
    var n := |buffers|;
    if n > 0 && buffers[n - 1] == "0" {
      assert |BuffersAfterRun(buffers, Completed(output))| == n - 1;
    } else if n > 0 && buffers[n - 1] != "" {
      assert buffers[..n - 1] + [buffers[n - 1]] == buffers;
    }
  }

  /**
   * When the snippet does not complete, whether `run` rethrows or the error
   * escapes it, its capture buffer stays open on top of the caller's buffers,
   * and a non-empty innermost buffer the caller had is gone.
   */
  lemma RethrowLeavesCaptureOpen(buffers: seq<string>, e: Evaluation)
    requires !e.Completed?
    ensures var after := BuffersAfterRun(buffers, e);
      |after| > 0 && after[|after| - 1] == e.output &&
      after[..|after| - 1] == (if SavedBuffer(buffers).Some? then buffers[..|buffers| - 1] else buffers)
  {
    var after := BuffersAfterRun(buffers, e);
    var outer := if SavedBuffer(buffers).Some? then buffers[..|buffers| - 1] else buffers;
    assert after == outer + [e.output];
    assert after[..|after| - 1] == outer;
  }

  // ---------------------------------------------------------------------------
  // Artifact paths.

  /** Two different tokens never share a script path, nor a log path. */
  lemma ArtifactPathInjective(dir: string, t1: string, t2: string, ext: string)
    requires ArtifactPath(dir, t1, ext) == ArtifactPath(dir, t2, ext)
    ensures t1 == t2
  {
    var p1, p2 := ArtifactPath(dir, t1, ext), ArtifactPath(dir, t2, ext);
    var n := |dir + Separator|;
    assert |t1| == |t2|;
    assert p1[n..n + |t1|] == t1;
    assert p2[n..n + |t2|] == t2;
  }

  /** A script path is never a log path, whatever the two tokens. */
  lemma ScriptIsNeverLog(dir: string, t1: string, t2: string)
    ensures ArtifactPath(dir, t1, ScriptExt) != ArtifactPath(dir, t2, LogExt)
  {
    var p1, p2 := ArtifactPath(dir, t1, ScriptExt), ArtifactPath(dir, t2, LogExt);
    assert p1[|p1| - 1] == 'p';
    assert p2[|p2| - 1] == 'g';
  }

  /** An artifact lies directly in its directory when neither token nor extension holds a separator. */
  lemma ArtifactInDir(dir: string, token: string, ext: string)
    requires '/' !in token && '/' !in ext
    ensures var p := ArtifactPath(dir, token, ext);
      |p| > |dir| && p[..|dir| + 1] == dir + Separator && '/' !in p[|dir| + 1..]
  {
    var p := ArtifactPath(dir, token, ext);
    assert p[|dir| + 1..] == token + ext;
  }

  // ---------------------------------------------------------------------------
  // The PHP runtime state the entry points touch.

  /** The file system, directories and output buffers of the PHP process hosting the sandbox. */
  class Host {
    /** Regular files: path to content. */
    var files: map<string, string>
    var dirs: set<string>
    /** The contents of the output-buffer stack, innermost last. */
    var buffers: seq<string>
    /** What has been sent to the client, outside every buffer. */
    var output: string

    constructor(files: map<string, string>, dirs: set<string>, buffers: seq<string>)
      ensures this.files == files && this.dirs == dirs && this.buffers == buffers && output == ""
    {
      this.files := files;
      this.dirs := dirs;
      this.buffers := buffers;
      output := "";
    }

    /** `realpath($path) !== false` */
    predicate Exists(path: string)
      reads this
    {
      path in files || path in dirs
    }

    /** `ob_get_length()`: `false` (None) without a buffer. */
    function ObLength(): (r: Option<nat>)
      reads this
      ensures r.Some? <==> |buffers| > 0
      ensures r.Some? ==> r.value == |buffers[|buffers| - 1]|
    {
      if |buffers| > 0 then Some(|buffers[|buffers| - 1]|) else None
    }

    /** `ob_get_contents()`: `false` (None) without a buffer. */
    function ObContents(): (r: Option<string>)
      reads this
      ensures r.Some? <==> |buffers| > 0
      ensures r.Some? ==> r.value == buffers[|buffers| - 1]
    {
      if |buffers| > 0 then Some(buffers[|buffers| - 1]) else None
    }

    /** `mkdir($dir, 0777, true)`; `succeeds` stands for what the file system allows. */
    method MakeDir(dir: string, succeeds: bool)
      modifies this
      ensures dirs == if succeeds then old(dirs) + {dir} else old(dirs)
      ensures files == old(files) && buffers == old(buffers) && output == old(output)
    {
      if succeeds {
        dirs := dirs + {dir};
      }
    }

    /** `file_put_contents($path, $content)` */
    method PutContents(path: string, content: string)
      modifies this
      ensures files == old(files)[path := content]
      ensures dirs == old(dirs) && buffers == old(buffers) && output == old(output)
    {
      files := files[path := content];
    }

    /** Appending to a file opened in mode `'a'`, which creates it when missing. */
    method AppendContents(path: string, content: string)
      modifies this
      ensures files == old(files)[path := (if path in old(files) then old(files)[path] else "") + content]
      ensures dirs == old(dirs) && buffers == old(buffers) && output == old(output)
    {
      var prev := if path in files then files[path] else "";
      files := files[path := prev + content];
    }

    /** `unlink($path)`: removes a regular file; anything else is left alone. */
    method Unlink(path: string)
      modifies this
      ensures files == old(files) - {path}
      ensures dirs == old(dirs) && buffers == old(buffers) && output == old(output)
    {
      files := files - {path};
    }

    /** `ob_start()` */
    method ObStart()
      modifies this
      ensures buffers == old(buffers) + [""]
      ensures files == old(files) && dirs == old(dirs) && output == old(output)
    {
      buffers := buffers + [""];
    }

    /** `ob_end_clean()`: drops the innermost buffer, if there is one. */
    method ObEndClean()
      modifies this
      ensures buffers == if |old(buffers)| > 0 then old(buffers)[..|old(buffers)| - 1] else old(buffers)
      ensures files == old(files) && dirs == old(dirs) && output == old(output)
    {
      if |buffers| > 0 {
        buffers := buffers[..|buffers| - 1];
      }
    }

    /** `echo $s`: into the innermost buffer, or to the client without one. */
    method Echo(s: string)
      modifies this
      ensures |old(buffers)| > 0 ==>
        buffers == old(buffers)[..|old(buffers)| - 1] + [old(buffers)[|old(buffers)| - 1] + s] &&
        output == old(output)
      ensures |old(buffers)| == 0 ==> buffers == old(buffers) && output == old(output) + s
      ensures files == old(files) && dirs == old(dirs)
    {
      if |buffers| > 0 {
        buffers := buffers[..|buffers| - 1] + [buffers[|buffers| - 1] + s];
      } else {
        output := output + s;
      }
    }
  }

  // ---------------------------------------------------------------------------
  // The service.

  class PhpSandbox {
    /** The kernel's cache directory, under which the sandbox directory lives. */
    const cacheDir: string
    /** The script last prepared by an entry point; PHP `null` (None) before the first. */
    var phpLastCode: Option<string>

    constructor(cacheDir: string)
      ensures this.cacheDir == cacheDir && phpLastCode == None
    {
      this.cacheDir := cacheDir;
      phpLastCode := None;
    }

    /** `getPhpSandboxDir()` */
    function SandboxDir(): (d: string)
      ensures |d| > |cacheDir| && d[..|cacheDir|] == cacheDir
    {
      cacheDir + SandboxDirName
    }

    /** `getLastPhpCode()` */
    function GetLastPhpCode(): (r: Option<string>)
      reads this
      ensures r == phpLastCode
    {
      phpLastCode
    }

    /** `mkdir()`: creates the sandbox directory when it is missing, and throws when it is still missing. */
    method Mkdir(host: Host, succeeds: bool) returns (r: Result<(), Failure>)
      modifies host
      ensures r.Ok? <==> host.Exists(SandboxDir())
      ensures r.Err? ==> r.error == DirectoryUnavailable
      ensures host.dirs == DirsAfterMkdir(old(host.dirs), old(host.Exists(SandboxDir())), SandboxDir(), succeeds)
      ensures host.files == old(host.files) && host.buffers == old(host.buffers) && host.output == old(host.output)
    {
      var dir := SandboxDir();
      if !host.Exists(dir) {
        host.MakeDir(dir, succeeds);
        if !host.Exists(dir) {
          return Err(DirectoryUnavailable);
        }
      }
      return Ok(());
    }

    /**
     * `run($code)`: writes the script prepared with both flags off to
     * `<dir>/<token>.php`, includes it with its output captured, and removes
     * the script again when the snippet completes or throws an `\Exception`.
     * Anything else the snippet ends with passes the `catch` by: the script
     * stays behind and the capture buffer stays open.
     */
    method Run(code: string, token: string, host: Host, evaluate: string -> Evaluation, mkdirSucceeds: bool)
      returns (r: Result<string, Failure>)
      modifies this, host
      ensures !old(host.Exists(SandboxDir())) && !mkdirSucceeds ==>
        r == Err(DirectoryUnavailable) && phpLastCode == old(phpLastCode) &&
        host.files == old(host.files) && host.buffers == old(host.buffers)
      ensures old(host.Exists(SandboxDir())) || mkdirSucceeds ==>
        var script := PreparePhpCode(code, false, false);
        var e := evaluate(script);
        phpLastCode == Some(script) &&
        host.files == FilesAfterRun(old(host.files), ArtifactPath(SandboxDir(), token, ScriptExt), script, e) &&
        host.buffers == BuffersAfterRun(old(host.buffers), e) &&
        r == RunResult(e)
      ensures host.output == old(host.output)
      ensures host.dirs == DirsAfterMkdir(old(host.dirs), old(host.Exists(SandboxDir())), SandboxDir(), mkdirSucceeds)
    {
      var path := ArtifactPath(SandboxDir(), token, ScriptExt);
      var made := Mkdir(host, mkdirSucceeds);
      if made.Err? {
        return Err(made.error);
      }
      phpLastCode := Some(PreparePhpCode(code, false, false));
      r := IncludeCaptured(host, path, phpLastCode.value, evaluate);
    }

    /**
     * The part of `run` from writing the script on: writes `script` to
     * `path` and includes it with its output captured; the `catch` removes
     * the script and rethrows an `\Exception`, and anything else that ends
     * the snippet early passes it by.
     */
    method IncludeCaptured(host: Host, path: string, script: string, evaluate: string -> Evaluation)
      returns (r: Result<string, Failure>)
      modifies host
      ensures var e := evaluate(script);
        host.files == FilesAfterRun(old(host.files), path, script, e) &&
        host.buffers == BuffersAfterRun(old(host.buffers), e) &&
        r == RunResult(e)
      ensures host.dirs == old(host.dirs) && host.output == old(host.output)
    {
      host.PutContents(path, script);
      assert host.files - {path} == old(host.files) - {path};
      ghost var outer := if SavedBuffer(host.buffers).Some? then host.buffers[..|host.buffers| - 1] else host.buffers;
      var backup := StartCapture(host);
      var e := evaluate(host.files[path]);
      host.Echo(e.output);
      assert host.buffers == outer + [e.output] by {
        assert "" + e.output == e.output;
      }
      match e {
        case Threw(_, exception) =>
          host.Unlink(path);
          return Err(Rethrown(exception));
        case Escaped(_, error) =>
          return Err(Uncaught(error));
        case Completed(_) =>
      }
      var result := EndCapture(host, backup);
      host.Unlink(path);
      return Ok(result);
    }

    /** The buffer handling `run` does before including the script: save a non-empty innermost buffer, then capture. */
    method StartCapture(host: Host) returns (backup: Option<string>)
      modifies host
      ensures backup == SavedBuffer(old(host.buffers))
      ensures host.buffers ==
        (if backup.Some? then old(host.buffers)[..|old(host.buffers)| - 1] else old(host.buffers)) + [""]
      ensures host.files == old(host.files) && host.dirs == old(host.dirs) && host.output == old(host.output)
    {
      backup := None;
      var len := host.ObLength();
      if len.Some? && len.value != 0 {
        backup := host.ObContents();
        host.ObEndClean();
      }
      host.ObStart();
    }

    /** The buffer handling `run` does after the script completes: take the capture, then put back a saved buffer PHP finds true. */
    method EndCapture(host: Host, backup: Option<string>) returns (result: string)
      requires |host.buffers| > 0
      modifies host
      ensures result == old(host.buffers)[|old(host.buffers)| - 1]
      ensures host.buffers == old(host.buffers)[..|old(host.buffers)| - 1] +
        (if backup.Some? && PhpTruthy(backup.value) then [backup.value] else [])
      ensures host.files == old(host.files) && host.dirs == old(host.dirs) && host.output == old(host.output)
    {
      var captured := host.ObContents();
      result := captured.value;
      host.ObEndClean();
      if backup.Some? && PhpTruthy(backup.value) {
        host.ObStart();
        host.Echo(backup.value);
        assert "" + backup.value == backup.value;
      }
    }

    /**
     * `runStandalone($code)`: feeds the script prepared with error reporting
     * on to a separate PHP process whose standard error is appended to
     * `<dir>/<token>.log`, hands a non-empty log to the classifier, and
     * removes the log whether or not it had content. `started` says whether
     * the process could be started; `execute` is what it writes for a script.
     * The result is the process's standard output, or None when it did not start.
     */
    method RunStandalone(code: string, token: string, host: Host, started: bool,
                         execute: string -> ProcessResult, checkErrorLog: string -> Option<string>,
                         mkdirSucceeds: bool)
      returns (r: Result<Option<string>, Failure>)
      modifies this, host
      ensures !old(host.Exists(SandboxDir())) && !mkdirSucceeds ==>
        r == Err(DirectoryUnavailable) && phpLastCode == old(phpLastCode) && host.files == old(host.files)
      ensures old(host.Exists(SandboxDir())) || mkdirSucceeds ==>
        var logPath := ArtifactPath(SandboxDir(), token, LogExt);
        var script := PreparePhpCode(code, true, false);
        var log := CollectedLog(old(host.files), logPath, if started then Some(execute(script).stderr) else None);
        phpLastCode == (if started then Some(script) else old(phpLastCode)) &&
        host.files == old(host.files) - {logPath} &&
        r == (if log != "" && checkErrorLog(log).Some? then Err(ErrorLogged(checkErrorLog(log).value))
              else Ok(if started then Some(execute(script).stdout) else None))
      ensures host.buffers == old(host.buffers) && host.output == old(host.output)
      ensures host.dirs == DirsAfterMkdir(old(host.dirs), old(host.Exists(SandboxDir())), SandboxDir(), mkdirSucceeds)
    {
      var logPath := ArtifactPath(SandboxDir(), token, LogExt);
      var made := Mkdir(host, mkdirSucceeds);
      if made.Err? {
        return Err(made.error);
      }

      var stream: Option<string> := None;
      if started {
        phpLastCode := Some(PreparePhpCode(code, true, false));
        var exited := execute(phpLastCode.value);
        host.AppendContents(logPath, exited.stderr);
        stream := Some(exited.stdout);
      }

      var thrown := ClearErrorLog(host, logPath, checkErrorLog);
      if thrown.Some? {
        return Err(ErrorLogged(thrown.value));
      }
      return Ok(stream);
    }

    /**
     * The log handling that ends `runStandalone`: a non-empty log is read,
     * removed and classified; an empty one is removed too. The result is what
     * the classifier threw, if anything.
     */
    method ClearErrorLog(host: Host, logPath: string, checkErrorLog: string -> Option<string>)
      returns (thrown: Option<string>)
      modifies host
      ensures var log := if logPath in old(host.files) then old(host.files)[logPath] else "";
        thrown == (if log != "" then checkErrorLog(log) else None)
      ensures host.files == old(host.files) - {logPath}
      ensures host.dirs == old(host.dirs) && host.buffers == old(host.buffers) && host.output == old(host.output)
    {
      thrown := None;
      if logPath in host.files && |host.files[logPath]| != 0 {
        var errorLog := host.files[logPath];
        host.Unlink(logPath);
        thrown := checkErrorLog(errorLog);
        if thrown.Some? {
          return;
        }
      }
      if host.Exists(logPath) {
        host.Unlink(logPath);
      }
    }

    /**
     * `runInBackground($code)`: writes the script prepared with the
     * self-delete directive to `<dir>/<token>.php` and forks a process to run
     * it. The script stays behind, for the child to delete as it runs, also
     * when the fork fails.
     */
    method RunInBackground(code: string, token: string, host: Host, forked: bool, mkdirSucceeds: bool)
      returns (r: Result<(), Failure>)
      modifies this, host
      ensures !old(host.Exists(SandboxDir())) && !mkdirSucceeds ==>
        r == Err(DirectoryUnavailable) && phpLastCode == old(phpLastCode) && host.files == old(host.files)
      ensures old(host.Exists(SandboxDir())) || mkdirSucceeds ==>
        var script := PreparePhpCode(code, false, true);
        phpLastCode == Some(script) &&
        host.files == old(host.files)[ArtifactPath(SandboxDir(), token, ScriptExt) := script] &&
        r == (if forked then Ok(()) else Err(CouldNotFork))
      ensures host.buffers == old(host.buffers) && host.output == old(host.output)
      ensures host.dirs == DirsAfterMkdir(old(host.dirs), old(host.Exists(SandboxDir())), SandboxDir(), mkdirSucceeds)
    {
      var path := ArtifactPath(SandboxDir(), token, ScriptExt);
      var made := Mkdir(host, mkdirSucceeds);
      if made.Err? {
        return Err(made.error);
      }
      phpLastCode := Some(PreparePhpCode(code, false, true));
      host.PutContents(path, phpLastCode.value);
      if !forked {
        return Err(CouldNotFork);
      }
      return Ok(());
    }
  }

  /** The log `runStandalone` reads back: what the file held before, plus what the process appended. */
  function CollectedLog(files: map<string, string>, logPath: string, appended: Option<string>): (r: string)
    ensures logPath in files ==> files[logPath] <= r
    ensures appended.Some? ==> |r| >= |appended.value| && r[|r| - |appended.value|..] == appended.value
    ensures |r| == (if logPath in files then |files[logPath]| else 0) + (if appended.Some? then |appended.value| else 0)
  {
    var prev := if logPath in files then files[logPath] else "";
    if appended.Some? then prev + appended.value else prev
  }

  /** The directories after `mkdir()`: the sandbox directory is added when it was missing and could be created. */
  function DirsAfterMkdir(dirs: set<string>, existed: bool, dir: string, succeeds: bool): (r: set<string>)
    ensures dirs <= r && r - dirs <= {dir}
    ensures dir in r <==> dir in dirs || (!existed && succeeds)
  {
    if existed || !succeeds then dirs else dirs + {dir}
  }
}
