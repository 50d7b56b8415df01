# PhpSandbox, modelled in Dafny

A model of the core of the Symfony bundle `GaYAlab/PhpSandboxBundle`: the
`PhpSandbox` service, which runs a caller's PHP snippet in one of three ways:

- in the current PHP process (`run`);
- in a separate PHP process that it waits for (`runStandalone`);
- in a forked background process (`runInBackground`).

The model has three parts:

- **`preparePhpCode`** (`CodePreparer`, on top of `PhpStrings`). This turns
  a snippet into a runnable script in three steps:
  1. It makes sure the script has a `<?php` open tag.
  2. When asked, it puts the error-reporting directive
     `CODE_SNIPPET_ERROR_REPORTING` right after that tag.
  3. When asked, it puts the self-delete directive `CODE_SNIPPET_HARAKIRI`
     before the first `?>`, or at the end when there is none.

  PHP's `trim` (default character set ` \t\n\r\0\x0B`) and `strpos` (first
  occurrence, or `false`) are modelled exactly. The script is a pure function
  of the snippet and the two flags, and the lemmas pin down its exact shape
  in each branch.
- **The service's state** (`Sandbox.PhpSandbox`). This holds `phpLastCode`,
  which each entry point fills with the script it prepared using its own fixed
  flags. `getLastPhpCode` reads it back.
- **The PHP runtime the entry points touch** (`Sandbox.Host`). This is the
  regular files and directories, the output-buffer stack and the client
  output. On top of it the model has:
  - the lazily created sandbox directory `<cacheDir>/gaya_php_sandbox`;
  - the temporary artifacts `<dir>/<token>.php` and `<dir>/<token>.log`,
    with the proof of when they are removed: `runStandalone` removes its log
    on every path after `mkdir`, and `run` removes its script when the
    snippet completes or throws an `\Exception`, but not when the snippet
    ends with an `\Error` or `exit`, which `catch (\Exception)` lets through.
    Both leave every other file alone;
  - the buffer save and restore that `run` performs around the included
    script.

Inputs the model takes as parameters:

- the token;
- whether `mkdir` can create the directory;
- how the included snippet ends (it completes, throws an `\Exception`, or
  ends with an `\Error` or `exit`), and what it echoed before that;
- whether the child process starts, and what it writes;
- what the error-log classifier throws;
- whether `pcntl_fork` succeeds.

The bundle's own tests expect the sandbox directory to be empty after each
entry point (Tests/Services/PhpSandboxTest.php:132, 163-176, 188 and 230).
The code does not always leave it empty, nor the buffers as it found them,
and the model follows the code:

- `runInBackground` throws 'Could not fork' without deleting the script it
  has just written, so that artifact stays behind.
  `PhpSandbox.RunInBackground` states this (its files map keeps the script on
  both paths).
- `run` catches only `\Exception`. A snippet that ends with an `\Error`
  (a parse error such as `x x x`, a call to an undefined function) or with
  `exit` leaves `<token>.php` behind (`FilesAfterRun`).
- `run` does not restore every buffer's contents:
  - A caller's innermost buffer holding exactly `"0"` is saved but never put
    back, because `"0"` is false to PHP (`RunRestoresBuffers`).
  - When the snippet throws or an error escapes, the capture buffer stays
    open and a saved buffer is lost (`RethrowLeavesCaptureOpen`).

## Model

| member | source | states |
|---|---|---|
| PhpStrings.Trim | Services/PhpSandbox.php:96 | PHP's `trim` with its default character set: the result is the slice between the first and past the last character outside the set (characterised by the lemmas below) |
| PhpStrings.LeadingWsSpec | Services/PhpSandbox.php:100 | `ltrim` removes exactly the leading characters from PHP's default trim set: all of them, and no more |
| PhpStrings.TrailingCutSpec | Services/PhpSandbox.php:102 | `rtrim` keeps exactly the text up to the last character outside the trim set |
| PhpStrings.TrimBounds | Services/PhpSandbox.php:96 | `trim` keeps a slice with only trim characters outside it; a non-empty slice starts and ends with a non-trim character |
| PhpStrings.TrimUnique | Services/PhpSandbox.php:96 | any slice with that property is what `trim` returns, so `trim` is characterised independently of how it is computed |
| PhpStrings.TrimNoop | Services/PhpSandbox.php:96 | a string that is empty, or that starts and ends with non-trim characters, is left unchanged by `trim` |
| PhpStrings.TrimIdempotent | Services/PhpSandbox.php:110 | trimming twice is trimming once |
| PhpStrings.TrimDropsLeadingWs | Services/PhpSandbox.php:102 | trim characters in front of a string do not change its trimmed form |
| PhpStrings.TrimDropsTrailingWs | Services/PhpSandbox.php:110 | trim characters after a string do not change its trimmed form |
| PhpStrings.TrimPrefixToNonWs | Services/PhpSandbox.php:100 | trimming a prefix that ends in a non-trim character only removes the string's leading whitespace |
| PhpStrings.IndexOf | Services/PhpSandbox.php:95-97 | `strpos`: the result is an occurrence with no earlier one, and `false` (None) exactly when there is none |
| PhpStrings.IndexOfIs | Services/PhpSandbox.php:97 | an occurrence with no earlier one is what `strpos` returns |
| PhpStrings.IndexOfThroughFirst | Services/PhpSandbox.php:100 | cutting a string just after the first occurrence of a pattern, from any earlier start, keeps that occurrence first |
| PhpStrings.TrimKeepsOccurrence | Services/PhpSandbox.php:110 | `trim` never destroys an occurrence of a pattern that starts and ends with non-trim characters |
| PhpStrings.TrimAddsNoOccurrence | Services/PhpSandbox.php:112 | `trim` never creates an occurrence |
| PhpStrings.SqueezeConcat | Services/PhpSandbox.php:100-102 | the non-whitespace view of a concatenation is the concatenation of the views |
| PhpStrings.TrimSqueeze | Services/PhpSandbox.php:100-102 | `trim` never changes the non-whitespace characters of a string |
| PhpStrings.SqueezeTrimmedSplice | Services/PhpSandbox.php:110 | joining two trimmed halves with a spaced directive keeps every non-whitespace character in order |
| CodePreparer.AddOpenTag | Services/PhpSandbox.php:92-103 | the first step of `preparePhpCode`: add a missing `<?php` or re-space the first one, with the error-reporting directive after it when requested; its shape is stated by the lemmas below |
| CodePreparer.AddHarakiri | Services/PhpSandbox.php:105-113 | the second step: splice the self-delete directive in before the first `?>`, or append it; its shape is stated by the lemmas below |
| CodePreparer.PreparePhpCode | Services/PhpSandbox.php:90-116 | `preparePhpCode`: the first step, then the second when `$harakiri` is set; its properties are the lemmas below |
| CodePreparer.ErrorReportingFacts | Services/PhpSandbox.php:17 | the error-reporting directive is non-empty, holds no `<` or `?`, and is unchanged by `trim` |
| CodePreparer.HarakiriFacts | Services/PhpSandbox.php:18 | the self-delete directive is non-empty and holds no `<` or `?` |
| CodePreparer.OpenTagHasNoCloseTag | Services/PhpSandbox.php:95 | the open tag `<?php` holds no `?>`, so adding it never adds a close tag |
| CodePreparer.AddOpenTagSplices | Services/PhpSandbox.php:95-103 | both branches of the first step are one splice: trimmed text through the first open tag (the tag alone when missing), the directive, and the trimmed rest |
| CodePreparer.TagHeadTail | Services/PhpSandbox.php:97-102 | the two halves of the splice put back together are the snippet, with the tag in front when it had none |
| CodePreparer.HeadShape | Services/PhpSandbox.php:100 | the trimmed first half ends with the first open tag, holds no earlier one and is already trimmed |
| CodePreparer.FirstTagOf | Services/PhpSandbox.php:95-103 | after the first step, the first open tag is the one that ends the trimmed first half |
| CodePreparer.AddsMissingOpenTag | Services/PhpSandbox.php:95-96 | with no `<?php` the result is `"<?php "`, then the error-reporting directive and a space when requested, then the trimmed snippet |
| CodePreparer.KeepsExistingOpenTag | Services/PhpSandbox.php:97-102 | with `<?php` first at `p`, the text from the first non-whitespace character through the tag is kept verbatim, followed by the directive (or one space) and the trimmed rest |
| CodePreparer.ErrorReportingFollowsTag | Services/PhpSandbox.php:92-101 | with error reporting on, the first open tag is followed by exactly one space, the directive and one space, in both branches |
| CodePreparer.AddOpenTagChangesOnlyLayout | Services/PhpSandbox.php:95-103 | apart from whitespace, the first step only adds a missing tag and, when requested, the directive right after the first tag |
| CodePreparer.UnchangedModuloLayout | Services/PhpSandbox.php:95-103 | with both flags off, the script equals the snippet up to whitespace, with `<?php` in front when it had none |
| CodePreparer.PrepareIdempotent | Services/PhpSandbox.php:95-103 | with both flags off, preparing a prepared script changes nothing |
| CodePreparer.HarakiriAppended | Services/PhpSandbox.php:111-112 | without `?>` the script is the trimmed text, a space and the self-delete directive; it ends with the directive and still holds no `?>` |
| CodePreparer.HarakiriBeforeCloseTag | Services/PhpSandbox.php:109-110 | with `?>` first at `q`, the first `?>` of the result comes straight after the trimmed text before `q`, a space, the directive and a space |
| CodePreparer.TagsDoNotOverlap | Services/PhpSandbox.php:109 | an occurrence of `<?php` and an occurrence of `?>` never overlap |
| CodePreparer.HarakiriKeepsOpenTag | Services/PhpSandbox.php:105-113 | the self-delete step keeps an open tag, on whichever side of the splice point it lies |
| CodePreparer.HarakiriChangesOnlyLayout | Services/PhpSandbox.php:105-113 | apart from whitespace, the self-delete step only inserts the directive at the first `?>`, or at the end |
| CodePreparer.SelfDeleteBeforeCloseTag | Services/PhpSandbox.php:105-113 | the self-delete directive occurs in the script, and ends before the script's first `?>` when it has one |
| CodePreparer.PreparedHasOpenTag | Services/PhpSandbox.php:90-116 | every prepared script, for every flag choice, holds `<?php` |
| CodePreparer.FirstStepAfterLeadingTag | Services/PhpSandbox.php:97-102 | a snippet that starts with `<?php` keeps it, followed by the directive and the trimmed rest |
| CodePreparer.FirstStepOnBare | Tests/Services/PhpSandboxTest.php:80 | a bare statement gets `<?php` and the directive in front |
| CodePreparer.FirstStepOnTagged | Tests/Services/PhpSandboxTest.php:81 | `<?php` plus a space plus a statement comes out as if the tag had been missing |
| CodePreparer.FirstStepOnClosed | Tests/Services/PhpSandboxTest.php:82 | `<?php`, a statement and `?>`, each separated by a space, keep both tags |
| CodePreparer.SecondStepWithoutCloseTag | Tests/Services/PhpSandboxTest.php:136-147 | `<?php` plus a statement gets the self-delete directive appended after one space |
| CodePreparer.SecondStepBeforeCloseTag | Tests/Services/PhpSandboxTest.php:148-153 | `<?php`, a statement and `?>` get the self-delete directive between the statement and `?>` |
| CodePreparer.HarakiriBeforeSpacedCloseTag | Services/PhpSandbox.php:109-110 | a trimmed text without `?>`, followed by a space and `?>`, gets the directive before the tag |
| CodePreparer.ExampleIsPlain | Tests/Services/PhpSandboxTest.php:80 | `$x = null;` is a plain statement: no tag characters and no outer whitespace |
| CodePreparer.PreparedForRun | Tests/Services/PhpSandboxTest.php:87-104 | the scripts `run` prepares from the bare, the tagged and the closed form of a statement, as the bundle's tests expect them |
| CodePreparer.PreparedForRunStandalone | Tests/Services/PhpSandboxTest.php:105-122 | the same for `runStandalone`: `"<?php "`, the error-reporting directive, a space, then the statement (and ` ?>`) |
| CodePreparer.PreparedForRunInBackground | Tests/Services/PhpSandboxTest.php:136-153 | the same for `runInBackground`: the statement, then the self-delete directive, then ` ?>` when the snippet had one |
| Sandbox.PhpTruthy | Services/PhpSandbox.php:171 | a string is true to PHP exactly when it has two or more characters, or one that is not `0` |
| Sandbox.BuffersAfterRun | Services/PhpSandbox.php:148-175 | the caller's buffers below the innermost one survive `run`; when the snippet does not complete, the capture buffer is left on top holding its output; when it completes, the stack does not grow |
| Sandbox.FilesAfterRun | Services/PhpSandbox.php:158-166 | the script is gone after `run` exactly when the snippet did not end with something `catch (\Exception)` lets through; every other file is untouched |
| Sandbox.RunResult | Services/PhpSandbox.php:158-179 | `run` returns the capture exactly when the snippet completes; it rethrows an `\Exception` and lets an `\Error` or `exit` pass |
| Sandbox.CollectedLog | Services/PhpSandbox.php:203-224 | the log read back starts with what the file held before and ends with what the process appended (mode `'a'`), and is exactly as long as both together |
| Sandbox.DirsAfterMkdir | Services/PhpSandbox.php:52-63 | `mkdir()` only ever adds the sandbox directory, and adds it exactly when it was missing and could be created |
| Sandbox.ArtifactPath | Services/PhpSandbox.php:142 | the path of an artifact: the sandbox directory, a separator, the token and the extension, as lines 142, 197 and 247 build it; `ArtifactPathInjective`, `ScriptIsNeverLog` and `ArtifactInDir` state its properties |
| Sandbox.SavedBuffer | Services/PhpSandbox.php:148-154 | `run` saves the innermost buffer exactly when one exists and is non-empty, and saves its content |
| Sandbox.RunRestoresBuffers | Services/PhpSandbox.php:148-175 | when the snippet completes, the contents of the caller's buffers come back unchanged if and only if the innermost one is not exactly `"0"`; a `"0"` buffer is dropped |
| Sandbox.RethrowLeavesCaptureOpen | Services/PhpSandbox.php:156-166 | when the snippet throws an `\Exception` or an error escapes the `catch`, the capture buffer stays open holding its output, on top of the caller's buffers minus a saved one |
| Sandbox.ArtifactPathInjective | Services/PhpSandbox.php:142 | distinct tokens give distinct artifact paths |
| Sandbox.ScriptIsNeverLog | Services/PhpSandbox.php:197 | a `.php` script path never equals a `.log` path |
| Sandbox.ArtifactInDir | Services/PhpSandbox.php:247 | an artifact lies directly inside the sandbox directory |
| Sandbox.Host.Exists | Services/PhpSandbox.php:56 | `realpath` succeeds for a regular file or a directory |
| Sandbox.Host.MakeDir | Services/PhpSandbox.php:58 | `mkdir` adds the directory when the file system allows it, and changes nothing else |
| Sandbox.Host.PutContents | Services/PhpSandbox.php:146 | `file_put_contents` sets that one file's content and changes nothing else |
| Sandbox.Host.AppendContents | Services/PhpSandbox.php:203 | appending in mode `'a'` creates a missing file and extends an existing one, and changes nothing else |
| Sandbox.Host.ObStart | Services/PhpSandbox.php:156 | `ob_start` pushes an empty buffer and changes nothing else |
| Sandbox.Host.ObEndClean | Services/PhpSandbox.php:153 | `ob_end_clean` drops the innermost buffer, if any, and changes nothing else |
| Sandbox.Host.ObLength | Services/PhpSandbox.php:150 | `ob_get_length()`: `false` exactly when no buffer is active, otherwise the length of the innermost buffer |
| Sandbox.Host.ObContents | Services/PhpSandbox.php:152 | `ob_get_contents()`: `false` exactly when no buffer is active, otherwise the innermost buffer |
| Sandbox.Host.Echo | Services/PhpSandbox.php:174 | `echo` appends to the innermost buffer, or to the client output when there is none |
| Sandbox.Host.Unlink | Services/PhpSandbox.php:164 | `unlink` removes that one file and changes nothing else |
| Sandbox.PhpSandbox.constructor | Services/PhpSandbox.php:15-24 | a new service has recorded no script yet (`phpLastCode` is `null`, None) and works under the kernel's cache directory |
| Sandbox.PhpSandbox.SandboxDir | Services/PhpSandbox.php:41-44 | the sandbox directory extends the cache directory |
| Sandbox.PhpSandbox.GetLastPhpCode | Services/PhpSandbox.php:123-126 | returns the recorded script, `null` (None) before any entry point ran |
| Sandbox.PhpSandbox.Mkdir | Services/PhpSandbox.php:52-63 | the directory is created only when missing; the call succeeds exactly when the directory exists afterwards and otherwise throws `DirectoryUnavailable` |
| Sandbox.PhpSandbox.Run | Services/PhpSandbox.php:137-180 | records the script prepared with both flags off; removes `<token>.php` when the snippet completes or throws an `\Exception`, keeps it when an `\Error` or `exit` passes the `catch`, and leaves every other file as it was (`FilesAfterRun`); returns the captured output, rethrows, or lets the error through (`RunResult`); leaves the buffers as `BuffersAfterRun` says |
| Sandbox.PhpSandbox.IncludeCaptured | Services/PhpSandbox.php:146-179 | from writing the script on, the files, buffers and outcome are those of `FilesAfterRun`, `BuffersAfterRun` and `RunResult` for how the snippet ended |
| Sandbox.PhpSandbox.StartCapture | Services/PhpSandbox.php:148-156 | the saved buffer is `SavedBuffer` of the stack; the stack loses it and gains an empty capture buffer |
| Sandbox.PhpSandbox.EndCapture | Services/PhpSandbox.php:168-175 | returns the capture buffer, pops it, and pushes the saved buffer back only when PHP finds it true |
| Sandbox.PhpSandbox.RunStandalone | Services/PhpSandbox.php:191-233 | records the script prepared with error reporting on, but only when the process started; removes `<token>.log` on every path after `mkdir`; throws what the classifier throws for a non-empty log, and otherwise returns the process output (None when it did not start) |
| Sandbox.PhpSandbox.ClearErrorLog | Services/PhpSandbox.php:222-230 | the log is removed whether it was empty or not, and only a non-empty log reaches the classifier |
| Sandbox.PhpSandbox.RunInBackground | Services/PhpSandbox.php:245-264 | records the script prepared with self-delete on and leaves it as `<token>.php` for the child to delete; the script stays behind also when the fork fails |

## Left out

- Token generation (`getUniqueToken`: `md5`, `microtime`, `uniqid`). The token is a parameter. `ArtifactPathInjective` shows that distinct tokens never collide.
- Evaluation of the snippet (`include_once`). It is a parameter giving how the snippet ended and its output. On PHP 5 a parse or fatal error ends the whole request instead of propagating; the model treats it like a PHP 7 `\Error`, which leaves the same script behind. A snippet that itself touches files or buffers is not modelled, and neither is `include_once` skipping a file it already included.
- The child process (`proc_open`, the pipes, `proc_close`, the binary and the environment variables). It is a started/not-started flag and a function from the script to its standard output and standard error. When the process does not start, the log file is assumed not to be created.
- `PhpSandboxErrorHandler::checkErrorLog`. It is a parameter that may throw. Its severity rules are not part of this model.
- `pcntl_fork`, `pcntl_exec` and the debug `pcntl_waitpid` of `runInBackground`. Fork success is a parameter. What the child does after `exec` is outside the parent, apart from the self-delete directive its script carries (`SelfDeleteBeforeCloseTag`).
- The `$variables` argument of the three entry points (`$_SANDBOX`, the child environment). It only feeds the evaluation and the child process.
- `mkdir`'s recursive creation of parent directories and its mode `0777`. Only the sandbox directory is tracked.
- I/O failures of `file_put_contents` and `unlink`. Writes are assumed to succeed, and `unlink` of a missing file is a no-op; PHP emits a warning there.
- PHP lexing. The model finds `<?php` and `?>` as plain substrings, as `strpos` does, including inside string literals and comments.
- PhpSandbox.Run: what PHP does after an `\Error` or `exit` has passed the `catch` (uncaught-exception handling, request shutdown flushing the open buffers to the client) is outside `run`; the model stops at the state `run` leaves.
- Output buffers are modelled by their contents only. The buffer `run` puts back is a new default one, without the caller's output handler, chunk size or flags, and the model does not show that loss. A buffer that `ob_end_clean` cannot remove (started without `PHP_OUTPUT_HANDLER_REMOVABLE`) is not modelled either; PHP then leaves it in place and `run` copies its contents into a second buffer.
- The service container (`__construct`, `getCacheDir`, the `gaya.php_settings.binary` parameter). The constructor takes the kernel's cache directory directly; the PHP binary only matters to the child process, which is a parameter.
- Command/CacheClearCommand.php (recursive clearing of the sandbox directory) and DependencyInjection/Configuration.php (configuration schema) are not part of this model.
