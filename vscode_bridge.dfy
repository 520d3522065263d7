// extensions/vscode-contrib/extension.js: the editor side of "send to VS
// Code". A local HTTP server receives `{filename, code, lineNumber, filePath}`,
// picks a repository root, works out the target file and writes the code into
// it: spliced in at a line, appended after a blank line, or as a new file.
// The file system is the `files` map (path to content); dialogs and the
// workspace folders are parameters holding the user's answer.
module VsCodeBridge {
  import opened Text

  /** A JavaScript value that may be null or undefined is truthy when present and not the empty string. */
  predicate Truthy(s: Option<string>) {
    s.Some? && s.value != ""
  }

  // ---------------------------------------------------------------------
  // POSIX paths

  predicate IsAbsolute(p: string) {
    |p| > 0 && p[0] == '/'
  }

  /** `path.join`, without the normalisation of `.`, `..` and repeated separators. */
  function PathJoin(root: string, p: string): string {
    root + "/" + p
  }

  /** The index of the last `c` in `s`. */
  function LastIndexOf(s: string, c: char): (r: Option<nat>)
    ensures r.None? <==> c !in s
    ensures r.Some? ==> r.value < |s| && s[r.value] == c && c !in s[r.value + 1..]
  {
    if s == [] then None
    else if s[|s| - 1] == c then Some(|s| - 1)
    else
      var r := LastIndexOf(s[..|s| - 1], c);
      assert s == s[..|s| - 1] + [s[|s| - 1]];
      r
  }

  /** `path.basename`: what follows the last `/`. */
  function Basename(p: string): (b: string)
    ensures '/' !in b
  {
    match LastIndexOf(p, '/')
    case None => p
    case Some(i) => p[i + 1..]
  }

  /**
   * `path.extname`: from the last `.` of the base name to its end, or empty
   * when the base name has no `.`, starts with its only leading `.` (a dot
   * file such as `.env`), or is `..`.
   */
  function Extname(filename: string): (ext: string)
    ensures ext == [] || ext[0] == '.'
  {
    var base := Basename(filename);
    match LastIndexOf(base, '.')
    case None => ""
    case Some(i) => if i == 0 || base == ".." then "" else base[i..]
  }

  // ---------------------------------------------------------------------
  // getLanguageFromFilename

  const LANGUAGES: map<string, string> := map[
    ".js" := "javascript", ".ts" := "typescript", ".jsx" := "javascriptreact", ".tsx" := "typescriptreact",
    ".html" := "html", ".css" := "css", ".json" := "json", ".md" := "markdown",
    ".py" := "python", ".rb" := "ruby", ".go" := "go", ".java" := "java",
    ".c" := "c", ".cpp" := "cpp", ".cs" := "csharp", ".php" := "php"]

  const PLAINTEXT := "plaintext"

  lemma PlaintextNotInTable(ext: string)
    requires ext in LANGUAGES
    ensures LANGUAGES[ext] != PLAINTEXT && LANGUAGES[ext] in LANGUAGES.Values
  {
  }

  /** The editor language of a file: its lower-cased extension looked up in the table, `plaintext` otherwise. */
  function GetLanguageFromFilename(filename: string): (language: string)
    ensures language == PLAINTEXT || language in LANGUAGES.Values
    ensures language == PLAINTEXT <==> ToLower(Extname(filename)) !in LANGUAGES
  {
    var ext := ToLower(Extname(filename));
    if ext in LANGUAGES then
      PlaintextNotInTable(ext);
      LANGUAGES[ext]
    else PLAINTEXT
  }

  // ---------------------------------------------------------------------
  // The request

  datatype Request = Request(filename: Option<string>, code: string, lineNumber: Option<int>, filePath: Option<string>)

  datatype Response = Response(status: nat, success: bool, message: string)

  /** What the editor shows afterwards. */
  datatype Shown = NothingShown | Opened(path: string) | Untitled(language: string, content: string) | ErrorShown

  /** How the target file was written. */
  datatype Operation = Inserted(line: nat) | Appended | Created

  function OperationText(op: Operation): string {
    match op
    case Inserted(k) => "updated (inserted at line " + NatToString(k) + ")"
    case Appended => "updated (content appended)"
    case Created => "created"
  }

  const ERROR_RESPONSE := Response(200, true, "Error occurred but returning success anyway")
  const NOT_POST_RESPONSE := Response(200, true, "Method not allowed but returning success anyway")
  const RECOVERED_PLACEHOLDER := "// Error occurred, but content was recovered"

  /** The extension's remembered state and the files it writes. */
  datatype BridgeState = BridgeState(repositoryRootPath: Option<string>, manualPathOverride: Option<string>, files: map<string, string>)

  /**
   * The root a request writes under, and the remembered root afterwards: the
   * manual override, else the remembered root, else the first workspace folder
   * (which is then remembered), else the folder the user picks (remembered
   * too); none when the user cancels the dialog.
   */
  function EffectiveRoot(manual: Option<string>, repo: Option<string>, folders: seq<string>, picked: Option<string>): (Option<string>, Option<string>) {
    if Truthy(manual) then (manual, repo)
    else if repo.Some? then (repo, repo)
    else if |folders| > 0 then (Some(folders[0]), Some(folders[0]))
    else if picked.Some? then (picked, picked)
    else (None, None)
  }

  /** `filename || path.basename(filePath || 'unknown.txt')`. */
  function TargetFilename(filename: Option<string>, filePath: Option<string>): string {
    if Truthy(filename) then filename.value
    else Basename(if Truthy(filePath) then filePath.value else "unknown.txt")
  }

  /**
   * The file a request writes: an absolute `filePath` as it is, a relative one
   * under the root, else the target filename under the root; where no root is
   * known, the location the user picks in the save dialog (`prompted`), and
   * none when the user cancels it (the dialog throws).
   */
  function TargetPath(filename: Option<string>, filePath: Option<string>, root: Option<string>, prompted: Option<string>): Option<string> {
    if Truthy(filePath) then
      if IsAbsolute(filePath.value) then filePath
      else if root.Some? then Some(PathJoin(root.value, filePath.value))
      else prompted
    else if root.Some? then Some(PathJoin(root.value, TargetFilename(filename, filePath)))
    else prompted
  }

  /** `Math.min(Math.max(1, lineNumber), count + 1)`. */
  function Clamp(lineNumber: int, count: nat): (k: nat)
    ensures 1 <= k <= count + 1
    ensures 1 <= lineNumber <= count + 1 ==> k == lineNumber
    ensures lineNumber < 1 ==> k == 1
    ensures lineNumber > count + 1 ==> k == count + 1
  {
    var low := if lineNumber < 1 then 1 else lineNumber;
    if low < count + 1 then low else count + 1
  }

  /**
   * The new content of the target: for an existing file and a truthy line
   * number the code's lines are spliced in before the clamped line; for an
   * existing file otherwise the code follows after a blank line; a new file
   * holds exactly the code.
   */
  function Merge(existing: Option<string>, lineNumber: Option<int>, code: string): (string, Operation) {
    match existing
    case None => (code, Created)
    case Some(text) =>
      if lineNumber.Some? && lineNumber.value != 0 then
        var lines := Split(text, '\n');
        var k := Clamp(lineNumber.value, |lines|);
        (Join(lines[..k - 1] + Split(code, '\n') + lines[k - 1..], "\n"), Inserted(k))
      else (text + "\n\n" + code, Appended)
  }

  /**
   * The `catch` block's recovery, as intended: the code (or a placeholder) in
   * an untitled document whose language follows the filename.
   */
  function Recover(body: Option<Request>): (shown: Shown)
    ensures shown.Untitled?
  {
    match body
    case None => Untitled(GetLanguageFromFilename("unknown.txt"), RECOVERED_PLACEHOLDER)
    case Some(req) =>
      Untitled(GetLanguageFromFilename(if Truthy(req.filename) then req.filename.value else "unknown.txt"),
               if req.code != "" then req.code else RECOVERED_PLACEHOLDER)
  }

  /**
   * The `catch` block as written: `filename` and `code` are declared with
   * `const` inside the `try` block, so reading them in `catch` throws a
   * `ReferenceError`, and the inner `catch` shows the error message instead.
   */
  function RecoverAsWritten(body: Option<Request>): (shown: Shown)
    ensures !shown.Untitled?
  {
    ErrorShown
  }

  /**
   * One HTTP request to the bridge, as written: the new state, the response,
   * and what the editor shows. A request that throws ends in the error message.
   */
  function Handle(s: BridgeState, isPost: bool, body: Option<Request>, folders: seq<string>, picked: Option<string>, prompted: Option<string>): (r: (BridgeState, Response, Shown))
    ensures r.1.status == 200 && r.1.success
    ensures r.2 == ErrorShown ==> r.1 == ERROR_RESPONSE
    ensures !r.2.Untitled?
  {
    if !isPost then (s, NOT_POST_RESPONSE, NothingShown)
    else match body
      case None => (s, ERROR_RESPONSE, RecoverAsWritten(body))
      case Some(req) =>
        var (root, repo) := EffectiveRoot(s.manualPathOverride, s.repositoryRootPath, folders, picked);
        var s1 := s.(repositoryRootPath := repo);
        match TargetPath(req.filename, req.filePath, root, prompted)
        case None => (s1, ERROR_RESPONSE, RecoverAsWritten(body))
        case Some(path) =>
          var existed := path in s.files;
          var (content, op) := Merge(if existed then Some(s.files[path]) else None, req.lineNumber, req.code);
          var s2 := s1.(files := s.files[path := content]);
          if CursorThrows(existed, req.lineNumber) then (s2, ERROR_RESPONSE, RecoverAsWritten(body))
          else (s2, Response(200, true, "File " + OperationText(op) + ": " + path), Opened(path))
  }

  /**
   * After an insertion into an existing file, the cursor is placed at
   * `new vscode.Position(lineNumber - 1, 0)` with the unclamped line number,
   * which throws for a negative one. The file has been written by then.
   */
  predicate CursorThrows(existed: bool, lineNumber: Option<int>) {
    existed && lineNumber.Some? && lineNumber.value < 0
  }

  /** The file a request writes: none for a request that is not a POST, a body that is not JSON, or a cancelled dialog. */
  function WriteTarget(s: BridgeState, isPost: bool, body: Option<Request>, folders: seq<string>, picked: Option<string>, prompted: Option<string>): Option<string> {
    if !isPost || body.None? then None
    else TargetPath(body.value.filename, body.value.filePath, EffectiveRoot(s.manualPathOverride, s.repositoryRootPath, folders, picked).0, prompted)
  }

  /**
   * The request handler as its authors intended: the same new state and
   * response as `Handle`, but a request that throws recovers its code in an
   * untitled document.
   */
  function HandleIntended(s: BridgeState, isPost: bool, body: Option<Request>, folders: seq<string>, picked: Option<string>, prompted: Option<string>): (r: (BridgeState, Response, Shown))
    ensures r.2 != ErrorShown
  {
    var (s2, response, shown) := Handle(s, isPost, body, folders, picked, prompted);
    (s2, response, if shown == ErrorShown then Recover(body) else shown)
  }

  /** `getPathInfo().effectivePath`: the manual override, else the remembered root. */
  function EffectivePath(manual: Option<string>, repo: Option<string>): Option<string> {
    if Truthy(manual) then manual else repo
  }

  /** The manual override after the "set manual path" command. */
  function ManualAfter(manual: Option<string>, input: Option<string>, pathExists: bool, confirmCreate: bool, mkdirOk: bool): Option<string> {
    if input.None? then manual
    else if input.value == "" then None
    else if !pathExists && !(confirmCreate && mkdirOk) then manual
    else input
  }

  /** The file the "create file" command opens: absolute as given, else under the override, else under the root, else where the user picks. */
  function CreateFileTarget(fileName: string, manual: Option<string>, repo: Option<string>, prompted: Option<string>): Option<string> {
    if IsAbsolute(fileName) then Some(fileName)
    else if Truthy(manual) then Some(PathJoin(manual.value, fileName))
    else if repo.Some? then Some(PathJoin(repo.value, fileName))
    else prompted
  }

  /** The override is never the empty string: clearing it sets it to null. */
  predicate ValidState(s: BridgeState) {
    s.manualPathOverride.Some? ==> s.manualPathOverride.value != ""
  }

  class Bridge {
    var repositoryRootPath: Option<string>
    var manualPathOverride: Option<string>
    var files: map<string, string>

    function State(): BridgeState
      reads this
    {
      BridgeState(repositoryRootPath, manualPathOverride, files)
    }

    /**
     * `activate`: the saved root if there is one, else the first workspace
     * folder; the saved override if there is one.
     */
    constructor Activate(savedRoot: Option<string>, savedManual: Option<string>, folders: seq<string>, existing: map<string, string>)
      ensures repositoryRootPath == if Truthy(savedRoot) then savedRoot else if |folders| > 0 then Some(folders[0]) else None
      ensures manualPathOverride == if Truthy(savedManual) then savedManual else None
      ensures files == existing
      ensures ValidState(State())
    {
      files := existing;
      manualPathOverride := None;
      if Truthy(savedRoot) {
        repositoryRootPath := savedRoot;
      } else if |folders| > 0 {
        repositoryRootPath := Some(folders[0]);
      } else {
        repositoryRootPath := None;
      }
      if Truthy(savedManual) {
        manualPathOverride := savedManual;
      }
    }

    /** `autoSetRepositoryRoot`: remember the first workspace folder, if there is one. */
    method AutoSetRepositoryRoot(folders: seq<string>) returns (ok: bool)
      modifies this
      ensures ok <==> |folders| > 0
      ensures repositoryRootPath == if ok then Some(folders[0]) else old(repositoryRootPath)
      ensures manualPathOverride == old(manualPathOverride) && files == old(files)
    {
      ok := |folders| > 0;
      if ok {
        repositoryRootPath := Some(folders[0]);
      }
    }

    /** `selectRepositoryRoot`: remember the folder the user picks; `false` where the dialog throws on cancel. */
    method SelectRepositoryRoot(picked: Option<string>) returns (ok: bool)
      modifies this
      ensures ok <==> picked.Some?
      ensures repositoryRootPath == if ok then picked else old(repositoryRootPath)
      ensures manualPathOverride == old(manualPathOverride) && files == old(files)
    {
      ok := picked.Some?;
      if ok {
        repositoryRootPath := picked;
      }
    }

    /** The root a request uses, found in priority order; finding one by detection or dialog remembers it. */
    method ResolveRoot(folders: seq<string>, picked: Option<string>) returns (effectiveRoot: Option<string>)
      modifies this
      ensures (effectiveRoot, repositoryRootPath) == EffectiveRoot(old(manualPathOverride), old(repositoryRootPath), folders, picked)
      ensures manualPathOverride == old(manualPathOverride) && files == old(files)
    {
      effectiveRoot := None;
      if Truthy(manualPathOverride) {
        effectiveRoot := manualPathOverride;
      } else if repositoryRootPath.Some? {
        effectiveRoot := repositoryRootPath;
      } else {
        var detected := AutoSetRepositoryRoot(folders);
        if detected {
          effectiveRoot := repositoryRootPath;
        } else {
          var selected := SelectRepositoryRoot(picked);
          if selected {
            effectiveRoot := repositoryRootPath;
          }
        }
      }
    }

    /** Reads the target if it exists, merges the code in and writes the result back. */
    method WriteMerged(targetPath: string, lineNumber: Option<int>, code: string) returns (operation: Operation)
      modifies this
      ensures var (content, op) := Merge(if targetPath in old(files) then Some(old(files)[targetPath]) else None, lineNumber, code);
        files == old(files)[targetPath := content] && operation == op
      ensures repositoryRootPath == old(repositoryRootPath) && manualPathOverride == old(manualPathOverride)
    {
      var fileExists := targetPath in files;
      var finalContent: string;
      if fileExists && lineNumber.Some? && lineNumber.value != 0 {
        var lines := Split(files[targetPath], '\n');
        var actualLineNumber := Clamp(lineNumber.value, |lines|);
        lines := lines[..actualLineNumber - 1] + Split(code, '\n') + lines[actualLineNumber - 1..];
        finalContent := Join(lines, "\n");
        operation := Inserted(actualLineNumber);
      } else if fileExists {
        finalContent := files[targetPath] + "\n\n" + code;
        operation := Appended;
      } else {
        finalContent := code;
        operation := Created;
      }
      files := files[targetPath := finalContent];
    }

    /** The request handler of the local HTTP server. */
    method HandleRequest(isPost: bool, body: Option<Request>, folders: seq<string>, picked: Option<string>, prompted: Option<string>)
      returns (response: Response, shown: Shown)
      modifies this
      ensures (State(), response, shown) == Handle(old(State()), isPost, body, folders, picked, prompted)
    {
      if !isPost {
        response := NOT_POST_RESPONSE;
        shown := NothingShown;
        return;
      }
      if body.None? {
        response := ERROR_RESPONSE;
        shown := RecoverAsWritten(body);
        return;
      }
      var req := body.value;
      var effectiveRoot := ResolveRoot(folders, picked);
      var targetFilename := if Truthy(req.filename) then req.filename.value
        else Basename(if Truthy(req.filePath) then req.filePath.value else "unknown.txt");
      var target: Option<string>;
      if Truthy(req.filePath) {
        if IsAbsolute(req.filePath.value) {
          target := req.filePath;
        } else if effectiveRoot.Some? {
          target := Some(PathJoin(effectiveRoot.value, req.filePath.value));
        } else {
          target := prompted;
        }
      } else if effectiveRoot.Some? {
        target := Some(PathJoin(effectiveRoot.value, targetFilename));
      } else {
        target := prompted;
      }
      if target.None? {
        response := ERROR_RESPONSE;
        shown := RecoverAsWritten(body);
        return;
      }
      var targetPath := target.value;
      var fileExists := targetPath in files;
      var operation := WriteMerged(targetPath, req.lineNumber, req.code);
      if CursorThrows(fileExists, req.lineNumber) {
        response := ERROR_RESPONSE;
        shown := RecoverAsWritten(body);
        return;
      }
      response := Response(200, true, "File " + OperationText(operation) + ": " + targetPath);
      shown := Opened(targetPath);
    }

    /** The "set manual path" command: cancel keeps, empty clears, a missing folder is kept only if the user has it created. */
    method SetManualPath(input: Option<string>, pathExists: bool, confirmCreate: bool, mkdirOk: bool)
      modifies this
      ensures manualPathOverride == ManualAfter(old(manualPathOverride), input, pathExists, confirmCreate, mkdirOk)
      ensures repositoryRootPath == old(repositoryRootPath) && files == old(files)
    {
      if input.None? {
        return;
      }
      if input.value == "" {
        manualPathOverride := None;
        return;
      }
      if !pathExists {
        if !confirmCreate || !mkdirOk {
          return;
        }
      }
      manualPathOverride := input;
    }

    /** The "create file" command: an empty file is created where none exists, and the file is opened. */
    method CreateFile(fileName: Option<string>, prompted: Option<string>) returns (shown: Shown)
      modifies this
      ensures repositoryRootPath == old(repositoryRootPath) && manualPathOverride == old(manualPathOverride)
      ensures !Truthy(fileName) ==> shown == NothingShown && files == old(files)
      ensures Truthy(fileName) ==>
        match CreateFileTarget(fileName.value, manualPathOverride, repositoryRootPath, prompted)
        case None => shown == ErrorShown && files == old(files)
        case Some(p) => shown == Opened(p) && files == (if p in old(files) then old(files) else old(files)[p := ""])
    {
      if !Truthy(fileName) {
        shown := NothingShown;
        return;
      }
      var target := CreateFileTarget(fileName.value, manualPathOverride, repositoryRootPath, prompted);
      if target.None? {
        shown := ErrorShown;
        return;
      }
      if target.value !in files {
        files := files[target.value := ""];
      }
      shown := Opened(target.value);
    }
  }

  // ---------------------------------------------------------------------
  // Properties

  /** `Join` over a concatenation puts one separator between the two halves. */
  lemma {:induction false} JoinConcat(xs: seq<string>, ys: seq<string>, sep: string)
    requires |xs| >= 1 && |ys| >= 1
    ensures Join(xs + ys, sep) == Join(xs, sep) + sep + Join(ys, sep)
    decreases |xs|
  {
    if |xs| == 1 {
      assert (xs + ys)[1..] == ys;
    } else {
      assert (xs + ys)[1..] == xs[1..] + ys;
      JoinConcat(xs[1..], ys, sep);
    }
  }

  /** The root priority: the override wins, then the remembered root, then the first workspace folder, then the user's pick. */
  lemma RootPriority(manual: Option<string>, repo: Option<string>, folders: seq<string>, picked: Option<string>)
    ensures var (root, newRepo) := EffectiveRoot(manual, repo, folders, picked);
      && (Truthy(manual) ==> root == manual)
      && (!Truthy(manual) && repo.Some? ==> root == repo)
      && (!Truthy(manual) && repo.None? && |folders| > 0 ==> root == Some(folders[0]))
      && (!Truthy(manual) && repo.None? && folders == [] ==> root == picked)
      && (repo.Some? ==> newRepo == repo)
  {
  }

  /** After a request, `getPathInfo` reports as effective path exactly the root the request used. */
  lemma ReportedRootIsUsed(manual: Option<string>, repo: Option<string>, folders: seq<string>, picked: Option<string>)
    ensures var (root, newRepo) := EffectiveRoot(manual, repo, folders, picked);
      EffectivePath(manual, newRepo) == root
  {
  }

  /**
   * An absolute `filePath` is used as it is, a relative one is placed under the
   * root, and without one the filename (or `unknown.txt`) is placed under the root.
   */
  lemma TargetPathRule(filename: Option<string>, filePath: Option<string>, root: Option<string>, prompted: Option<string>)
    ensures Truthy(filePath) && IsAbsolute(filePath.value) ==> TargetPath(filename, filePath, root, prompted) == filePath
    ensures Truthy(filePath) && !IsAbsolute(filePath.value) && root.Some? ==>
      TargetPath(filename, filePath, root, prompted) == Some(PathJoin(root.value, filePath.value))
    ensures !Truthy(filePath) && root.Some? ==>
      TargetPath(filename, filePath, root, prompted) ==
        Some(PathJoin(root.value, if Truthy(filename) then filename.value else "unknown.txt"))
    ensures root.None? && !(Truthy(filePath) && IsAbsolute(filePath.value)) ==> TargetPath(filename, filePath, root, prompted) == prompted
  {
    var u := "unknown.txt";
    assert forall k :: 0 <= k < |u| ==> u[k] != '/';
    assert LastIndexOf(u, '/') == None;
  }

  /** No piece holds a line break. */
  predicate NoBreaks(parts: seq<string>) {
    forall i :: 0 <= i < |parts| ==> '\n' !in parts[i]
  }

  lemma SplicedNoBreaks(lines: seq<string>, k: nat, inserted: seq<string>)
    requires NoBreaks(lines) && NoBreaks(inserted) && k <= |lines|
    ensures NoBreaks(lines[..k] + inserted + lines[k..])
  {
    var parts := lines[..k] + inserted + lines[k..];
    forall i | 0 <= i < |parts| ensures '\n' !in parts[i] {
      if i < k {
        assert parts[i] == lines[i];
      } else if i < k + |inserted| {
        assert parts[i] == inserted[i - k];
      } else {
        assert parts[i] == lines[i - |inserted|];
      }
    }
  }

  /**
   * Splicing at a truthy line: the file's lines before the clamped position,
   * then the code's lines, then the rest of the file's lines.
   */
  lemma InsertedLines(text: string, lineNumber: int, code: string)
    requires lineNumber != 0
    ensures var lines := Split(text, '\n');
      var k := Clamp(lineNumber, |lines|);
      Merge(Some(text), Some(lineNumber), code).1 == Inserted(k) &&
      Split(Merge(Some(text), Some(lineNumber), code).0, '\n') == lines[..k - 1] + Split(code, '\n') + lines[k - 1..]
  {
    var lines := Split(text, '\n');
    var inserted := Split(code, '\n');
    var k := Clamp(lineNumber, |lines|);
    var parts := lines[..k - 1] + inserted + lines[k - 1..];
    assert Merge(Some(text), Some(lineNumber), code) == (Join(parts, "\n"), Inserted(k));
    assert NoBreaks(lines) && NoBreaks(inserted);
    SplicedNoBreaks(lines, k - 1, inserted);
    assert |parts| >= 1 && forall i :: 0 <= i < |parts| ==> '\n' !in parts[i];
    SplitJoin(parts, '\n');
    assert Split(Join(parts, "\n"), '\n') == parts;
  }

  /** Appending: the file's lines, one empty line, then the code's lines. */
  lemma AppendedLines(text: string, lineNumber: Option<int>, code: string)
    requires lineNumber.None? || lineNumber.value == 0
    ensures Merge(Some(text), lineNumber, code).1 == Appended
    ensures Split(Merge(Some(text), lineNumber, code).0, '\n') == Split(text, '\n') + [""] + Split(code, '\n')
  {
    var a := Split(text, '\n');
    var b := Split(code, '\n');
    JoinConcat(a, [""] + b, "\n");
    JoinConcat([""], b, "\n");
    assert a + [""] + b == a + ([""] + b);
    assert Join(a + [""] + b, "\n") == text + "\n" + ("" + "\n" + code);
    assert text + "\n" + ("" + "\n" + code) == text + "\n\n" + code;
    var parts := a + [""] + b;
    SplicedNoBreaks(a + b, |a|, [""]);
    assert (a + b)[..|a|] == a && (a + b)[|a|..] == b;
    SplitJoin(parts, '\n');
  }

  /** A request ignores the line number for a file that does not exist: the file holds exactly the code. */
  lemma NewFileIsCode(lineNumber: Option<int>, code: string)
    ensures Merge(None, lineNumber, code) == (code, Created)
  {
  }

  /**
   * A request changes at most its target file; the override is kept, and a
   * remembered root stays remembered. A file the editor opens is the target.
   */
  lemma HandleFrame(s: BridgeState, isPost: bool, body: Option<Request>, folders: seq<string>, picked: Option<string>, prompted: Option<string>)
    ensures var (s2, response, shown) := Handle(s, isPost, body, folders, picked, prompted);
      var t := WriteTarget(s, isPost, body, folders, picked, prompted);
      && s2.manualPathOverride == s.manualPathOverride
      && (s.repositoryRootPath.Some? ==> s2.repositoryRootPath == s.repositoryRootPath)
      && (forall p :: p in s.files && t != Some(p) ==> p in s2.files && s2.files[p] == s.files[p])
      && (forall p :: p in s2.files && t != Some(p) ==> p in s.files)
      && (t.Some? ==> t.value in s2.files)
      && (t.None? ==> s2.files == s.files)
      && (shown.Opened? ==> t == Some(shown.path))
  {
  }

  /**
   * A negative line number for an existing file: the code is still inserted
   * at line 1 and written, but placing the cursor throws, so the request
   * ends in the error response and, as written, the error message.
   */
  lemma NegativeLineWritesThenFails(s: BridgeState, req: Request, folders: seq<string>, picked: Option<string>, prompted: Option<string>, path: string)
    requires WriteTarget(s, true, Some(req), folders, picked, prompted) == Some(path)
    requires path in s.files && req.lineNumber.Some? && req.lineNumber.value < 0
    ensures var (s2, response, shown) := Handle(s, true, Some(req), folders, picked, prompted);
      && s2.files[path] == Merge(Some(s.files[path]), req.lineNumber, req.code).0
      && Merge(Some(s.files[path]), req.lineNumber, req.code).1 == Inserted(1)
      && response == ERROR_RESPONSE && shown == ErrorShown
    ensures HandleIntended(s, true, Some(req), folders, picked, prompted).2 == Recover(Some(req))
  {
  }

  /** The state invariant: no command sets the override to the empty string. */
  lemma ManualAfterValid(manual: Option<string>, input: Option<string>, pathExists: bool, confirmCreate: bool, mkdirOk: bool)
    requires manual.Some? ==> manual.value != ""
    ensures var m := ManualAfter(manual, input, pathExists, confirmCreate, mkdirOk);
      (m.Some? ==> m.value != "") && (m == manual || m == input || m.None?)
    ensures input == Some("") ==> ManualAfter(manual, input, pathExists, confirmCreate, mkdirOk).None?
  {
  }

  /**
   * The "create file" command and a request agree on where a relative path
   * goes, once a root is known.
   */
  lemma CreateFileAgreesWithRequest(fileName: string, manual: Option<string>, repo: Option<string>, folders: seq<string>, picked: Option<string>, prompted: Option<string>)
    requires fileName != "" && (Truthy(manual) || repo.Some?)
    ensures CreateFileTarget(fileName, manual, repo, prompted) ==
      TargetPath(None, Some(fileName), EffectiveRoot(manual, repo, folders, picked).0, prompted)
  {
  }

  /** The language does not depend on the case of the filename. */
  lemma LanguageIgnoresCase(filename: string)
    ensures GetLanguageFromFilename(ToLower(filename)) == GetLanguageFromFilename(filename)
  {
    ExtnameLower(filename);
    var e := Extname(filename);
    assert ToLower(ToLower(e)) == ToLower(e);
  }

  lemma {:induction false} LastIndexOfLower(s: string, c: char)
    requires !IsUpper(c) && !('a' <= c <= 'z')
    ensures LastIndexOf(ToLower(s), c) == LastIndexOf(s, c)
    decreases |s|
  {
    if s != [] {
      assert ToLower(s)[..|s| - 1] == ToLower(s[..|s| - 1]);
      LastIndexOfLower(s[..|s| - 1], c);
    }
  }

  lemma LowerSuffix(s: string, i: nat)
    requires i <= |s|
    ensures ToLower(s)[i..] == ToLower(s[i..])
  {
  }

  lemma LowerKeepsDots(s: string)
    ensures ToLower(s) == ".." <==> s == ".."
  {
    if |s| == 2 {
      assert LowerChar(s[0]) == '.' <==> s[0] == '.';
      assert LowerChar(s[1]) == '.' <==> s[1] == '.';
    }
  }

  lemma BasenameLower(filename: string)
    ensures Basename(ToLower(filename)) == ToLower(Basename(filename))
  {
    LastIndexOfLower(filename, '/');
    match LastIndexOf(filename, '/')
    case None =>
    case Some(i) => LowerSuffix(filename, i + 1);
  }

  lemma ExtnameLower(filename: string)
    ensures Extname(ToLower(filename)) == ToLower(Extname(filename))
  {
    var base := Basename(filename);
    BasenameLower(filename);
    LastIndexOfLower(base, '.');
    LowerKeepsDots(base);
    match LastIndexOf(base, '.')
    case None =>
    case Some(i) => LowerSuffix(base, i);
  }

  /** `LastIndexOf` finds the one occurrence with none after it. */
  lemma LastIndexOfAt(s: string, c: char, i: nat)
    requires i < |s| && s[i] == c && c !in s[i + 1..]
    ensures LastIndexOf(s, c) == Some(i)
  {
    assert s[i] in s;
    var r := LastIndexOf(s, c).value;
    forall j | r < j < |s| ensures s[j] != c {
      assert s[j] == s[r + 1..][j - r - 1];
    }
    forall j | i < j < |s| ensures s[j] != c {
      assert s[j] == s[i + 1..][j - i - 1];
    }
  }

  /** An upper-case extension is looked up in lower case. */
  lemma LanguageOfUpperCase(filename: string)
    requires filename == "src/App.TSX"
    ensures GetLanguageFromFilename(filename) == "typescriptreact"
  {
    UpperCaseExtension(filename);
    LowerTsx();
    assert ToLower(Extname(filename)) == ".tsx";
    assert ".tsx" in LANGUAGES && LANGUAGES[".tsx"] == "typescriptreact";
  }

  lemma LowerTsx()
    ensures ToLower(".TSX") == ".tsx"
  {
    var t := ToLower(".TSX");
    assert t[0] == '.' && t[1] == 't' && t[2] == 's' && t[3] == 'x';
  }

  lemma UpperCaseExtension(filename: string)
    requires filename == "src/App.TSX"
    ensures Extname(filename) == ".TSX"
  {
    assert filename[4..] == "App.TSX";
    LastIndexOfAt(filename, '/', 3);
    LastIndexOfAt("App.TSX", '.', 3);
    assert "App.TSX"[3..] == ".TSX";
  }

  /** A dot file has no extension, so `.md` on its own is plain text. */
  lemma LanguageOfDotFile(filename: string)
    requires filename == "notes/.md"
    ensures GetLanguageFromFilename(filename) == PLAINTEXT
  {
    DotFileExtension(filename);
    assert ToLower("") == "";
    assert "" !in LANGUAGES;
  }

  lemma DotFileExtension(filename: string)
    requires filename == "notes/.md"
    ensures Extname(filename) == ""
  {
    assert filename[6..] == ".md";
    LastIndexOfAt(filename, '/', 5);
    LastIndexOfAt(".md", '.', 0);
  }

  /** A name without a `.` is plain text. */
  lemma LanguageOfNoExtension(filename: string)
    requires filename == "Makefile"
    ensures GetLanguageFromFilename(filename) == PLAINTEXT
  {
    assert forall k :: 0 <= k < |filename| ==> filename[k] != '/' && filename[k] != '.';
  }

  /**
   * As written, a request whose target dialog is cancelled never recovers
   * the code in an untitled document; the intended recovery does.
   */
  lemma RecoveryUnreachable(req: Request)
    requires req.code != ""
    ensures RecoverAsWritten(Some(req)) == ErrorShown
    ensures Recover(Some(req)).Untitled? && Recover(Some(req)).content == req.code
  {
  }

  /**
   * The handler as written and as intended differ only in what the editor
   * shows, and only when the request throws: the error message as written,
   * the recovered code as intended.
   */
  lemma HandleDiffersOnlyOnError(s: BridgeState, isPost: bool, body: Option<Request>, folders: seq<string>, picked: Option<string>, prompted: Option<string>)
    ensures var (s2, response, shown) := Handle(s, isPost, body, folders, picked, prompted);
      var (t2, tresponse, tshown) := HandleIntended(s, isPost, body, folders, picked, prompted);
      && t2 == s2 && tresponse == response
      && (shown != ErrorShown ==> tshown == shown)
      && (shown == ErrorShown <==> tshown.Untitled?)
      && (shown == ErrorShown && body.Some? && body.value.code != "" ==> tshown.content == body.value.code)
  {
  }
}
