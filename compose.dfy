/**
 * The compose handlers of compose.go (and their copy in handlers/compose.go):
 * `ComposeRun` turns a run request into a `docker compose` command line,
 * the Up/Down/Ps/Logs/Scale handlers shape the request before delegating to
 * it, and the upload and get-file handlers resolve file names through the
 * sandbox.
 *
 * The compose base directory (ComposeBaseDir) and the working directory
 * filepath.Abs consults are parameters; the process environment is the
 * parameter `environ`; writing and reading files and running the command
 * are oracles.
 */
module Compose {
  import opened Text
  import opened FilePath
  import opened Sandbox
  import opened Handler

  datatype RunRequest = RunRequest(filePath: string, workDir: string, env: map<string, string>, args: seq<string>)
  datatype ScaleRequest = ScaleRequest(filePath: string, workDir: string, service: string, replicas: Int64)
  datatype UploadRequest = UploadRequest(name: string, content: string)

  const FilePathRequired: string := "file_path required"
  const ScaleInvalid: string := "service and replicas required"
  const UploadInvalid: string := "name and content required"
  const PathRequired: string := "path required"

  // ---------------------------------------------------------------------
  // The environment overlay
  // ---------------------------------------------------------------------

  /** fmt.Sprintf("%s=%s", k, v) */
  function Assignment(k: string, v: string): string {
    k + "=" + v
  }

  /** `order` lists every key of `keys` exactly once: one iteration order of a Go map. */
  ghost predicate Enumerates(order: seq<string>, keys: set<string>) {
    (forall i, j :: 0 <= i < j < |order| ==> order[i] != order[j]) &&
    (forall k :: k in keys <==> k in order)
  }

  /** The assignments of the entries of `m` in the order `order`. */
  function Assignments(order: seq<string>, m: map<string, string>): (r: seq<string>)
    requires forall i :: 0 <= i < |order| ==> order[i] in m
    ensures |r| == |order|
    ensures forall i :: 0 <= i < |order| ==> r[i] == Assignment(order[i], m[order[i]])
    decreases |order|
  {
    if order == [] then [] else Assignments(order[..|order| - 1], m) + [Assignment(order[|order| - 1], m[order[|order| - 1]])]
  }

  /** One more key adds its assignment at the end. */
  lemma AssignmentsSnoc(order: seq<string>, k: string, m: map<string, string>)
    requires forall i :: 0 <= i < |order| ==> order[i] in m
    requires k in m
    ensures Assignments(order + [k], m) == Assignments(order, m) + [Assignment(k, m[k])]
  {
    assert (order + [k])[..|order|] == order;
  }

  /**
   * `env` is the inherited environment followed by one assignment per entry
   * of the overlay `m`, in some iteration order of the map.
   */
  ghost predicate IsOverlay(environ: seq<string>, m: map<string, string>, env: seq<string>) {
    exists order :: Enumerates(order, m.Keys) && env == environ + Assignments(order, m)
  }

  /** An enumeration of a set has exactly as many elements as the set. */
  lemma {:induction false} EnumeratesSize(order: seq<string>, keys: set<string>)
    requires Enumerates(order, keys)
    ensures |order| == |keys|
    decreases |order|
  {
    if order != [] {
      var last := order[|order| - 1];
      var init := order[..|order| - 1];
      assert last in keys;
      assert Enumerates(init, keys - {last}) by {
        forall k ensures k in keys - {last} <==> k in init {
          if k in init {
            var i :| 0 <= i < |init| && init[i] == k;
            assert order[i] == k && i < |order| - 1;
          }
          if k in keys - {last} {
            assert k in order;
            var i :| 0 <= i < |order| && order[i] == k;
            assert i != |order| - 1;
            assert init[i] == k;
          }
        }
      }
      EnumeratesSize(init, keys - {last});
    }
  }

  /**
   * The overlaid environment keeps the inherited one as its prefix and adds
   * exactly one entry per overlay key: `k=v` for every key `k` with value
   * `v`, and nothing else.
   */
  lemma OverlayContents(environ: seq<string>, m: map<string, string>, env: seq<string>)
    requires IsOverlay(environ, m, env)
    ensures |env| == |environ| + |m|
    ensures env[..|environ|] == environ
    ensures forall k :: k in m ==> Assignment(k, m[k]) in env[|environ|..]
    ensures forall i :: |environ| <= i < |env| ==> exists k :: k in m && env[i] == Assignment(k, m[k])
  {
    var order :| Enumerates(order, m.Keys) && env == environ + Assignments(order, m);
    EnumeratesSize(order, m.Keys);
    var added := Assignments(order, m);
    assert env[|environ|..] == added;
    forall k | k in m ensures Assignment(k, m[k]) in added {
      var i :| 0 <= i < |order| && order[i] == k;
      assert added[i] == Assignment(k, m[k]);
    }
    forall i | |environ| <= i < |env| ensures exists k :: k in m && env[i] == Assignment(k, m[k]) {
      assert env[i] == added[i - |environ|];
      var k := order[i - |environ|];
      assert k in m && env[i] == Assignment(k, m[k]);
    }
  }

  /** With an empty overlay the only overlaid environment is the inherited one. */
  lemma OverlayOfEmpty(environ: seq<string>, env: seq<string>)
    requires IsOverlay(environ, map[], env)
    ensures env == environ
  {
    OverlayContents(environ, map[], env);
  }

  /** The loop of ComposeRun that appends `k=v` for each overlay entry, in the map's iteration order. */
  method Overlay(environ: seq<string>, m: map<string, string>) returns (env: seq<string>)
    ensures IsOverlay(environ, m, env)
  {
    env := environ;
    var remaining := m.Keys;
    ghost var order: seq<string> := [];
    while remaining != {}
      invariant Pending(m, remaining, order)
      invariant env == environ + Assignments(order, m)
      decreases |remaining|
    {
      var k :| k in remaining;
      PendingStep(m, remaining, order, k);
      env := env + [Assignment(k, m[k])];
      order := order + [k];
      remaining := remaining - {k};
    }
    assert Enumerates(order, m.Keys);
  }

  /**
   * The keys of `m` split into those still to visit, `remaining`, and those
   * visited once each, in the order `order`.
   */
  ghost predicate Pending(m: map<string, string>, remaining: set<string>, order: seq<string>) {
    remaining <= m.Keys
    && (forall k :: k in m.Keys <==> k in remaining || k in order)
    && (forall k :: k in remaining ==> k !in order)
    && (forall i, j :: 0 <= i < j < |order| ==> order[i] != order[j])
    && (forall i :: 0 <= i < |order| ==> order[i] in m)
  }

  /** Visiting one remaining key keeps the split and appends its assignment. */
  lemma PendingStep(m: map<string, string>, remaining: set<string>, order: seq<string>, k: string)
    requires Pending(m, remaining, order) && k in remaining
    ensures Pending(m, remaining - {k}, order + [k])
    ensures Assignments(order + [k], m) == Assignments(order, m) + [Assignment(k, m[k])]
  {
    AssignmentsSnoc(order, k, m);
  }


  // ---------------------------------------------------------------------
  // ComposeRun
  // ---------------------------------------------------------------------

  /**
   * The command ComposeRun builds for a request with a file path:
   * `docker compose -f <file> <subcmd> <args...>`, run in the request's
   * working directory or else the file's directory, with the environment
   * left inherited when the overlay is empty and extended by it otherwise.
   */
  ghost predicate IsComposeCommand(environ: seq<string>, subcmd: string, req: RunRequest, c: Command) {
    c.exe == Docker &&
    c.argv == ["compose", "-f", req.filePath, subcmd] + req.args &&
    c.dir == (if req.workDir == "" then Dir(req.filePath) else req.workDir) &&
    (if |req.env| == 0 then c.env.None? else c.env.Some? && IsOverlay(environ, req.env, c.env.value))
  }

  /**
   * The whole effect of ComposeRun: a request without a file path is a bad
   * request and runs nothing; otherwise the compose command is run once and
   * its outcome is the reply.
   */
  ghost predicate RunsCompose(environ: seq<string>, run: Command -> Outcome, subcmd: string, req: RunRequest,
                              cmd: Option<Command>, reply: Reply) {
    if req.filePath == "" then
      cmd.None? && reply == ErrorReply(StatusBadRequest, FilePathRequired)
    else
      cmd.Some? && IsComposeCommand(environ, subcmd, req, cmd.value) && reply == RunReply(run(cmd.value), map[])
  }

  method ComposeRun(environ: seq<string>, run: Command -> Outcome, subcmd: string, req: RunRequest)
    returns (cmd: Option<Command>, reply: Reply)
    ensures RunsCompose(environ, run, subcmd, req, cmd, reply)
  {
    if req.filePath == "" {
      return None, ErrorReply(StatusBadRequest, FilePathRequired);
    }
    var workDir := req.workDir;
    if workDir == "" {
      workDir := Dir(req.filePath);
    }
    var args := ["compose", "-f", req.filePath, subcmd];
    if |req.args| > 0 {
      args := args + req.args;
    }
    var env: Option<seq<string>> := None;
    if |req.env| > 0 {
      var overlaid := Overlay(environ, req.env);
      env := Some(overlaid);
    }
    cmd := Some(Command(Docker, args, workDir, env));
    var outcome := run(cmd.value);
    reply := RunReply(outcome, map[]);
  }

  /** A failed command is a 500 reply with success=false and the output, never a missing reply. */
  lemma ComposeRunFailure(environ: seq<string>, run: Command -> Outcome, subcmd: string, req: RunRequest,
                          cmd: Option<Command>, reply: Reply)
    requires RunsCompose(environ, run, subcmd, req, cmd, reply)
    requires cmd.Some? && run(cmd.value).failure.Some?
    ensures reply.status == StatusInternalServerError
    ensures reply.body["success"] == Bool(false) && reply.body["output"] == Str(run(cmd.value).output)
  {
  }

  // ---------------------------------------------------------------------
  // The handlers that delegate to ComposeRun
  // ---------------------------------------------------------------------

  /** POST compose up: the caller's arguments followed by `-d`. */
  method ComposeUp(environ: seq<string>, run: Command -> Outcome, req: RunRequest)
    returns (cmd: Option<Command>, reply: Reply)
    ensures RunsCompose(environ, run, "up", req.(args := req.args + ["-d"]), cmd, reply)
    ensures cmd.Some? ==> cmd.value.argv[4..] == req.args + ["-d"] && cmd.value.argv[|cmd.value.argv| - 1] == "-d"
  {
    var r := req.(args := req.args + ["-d"]);
    cmd, reply := ComposeRun(environ, run, "up", r);
  }

  method ComposeDown(environ: seq<string>, run: Command -> Outcome, req: RunRequest)
    returns (cmd: Option<Command>, reply: Reply)
    ensures RunsCompose(environ, run, "down", req, cmd, reply)
  {
    cmd, reply := ComposeRun(environ, run, "down", req);
  }

  method ComposePs(environ: seq<string>, run: Command -> Outcome, req: RunRequest)
    returns (cmd: Option<Command>, reply: Reply)
    ensures RunsCompose(environ, run, "ps", req, cmd, reply)
  {
    cmd, reply := ComposeRun(environ, run, "ps", req);
  }

  const DefaultLogArgs: seq<string> := ["--no-color", "--tail", "200"]

  /** POST compose logs: the default arguments exactly when the caller gave none. */
  method ComposeLogs(environ: seq<string>, run: Command -> Outcome, req: RunRequest)
    returns (cmd: Option<Command>, reply: Reply)
    ensures req.args == [] ==> RunsCompose(environ, run, "logs", req.(args := DefaultLogArgs), cmd, reply)
    ensures req.args != [] ==> RunsCompose(environ, run, "logs", req, cmd, reply)
    ensures cmd.Some? ==> cmd.value.argv[4..] == if req.args == [] then DefaultLogArgs else req.args
  {
    var r := req;
    if |r.args| == 0 {
      r := r.(args := DefaultLogArgs);
    }
    cmd, reply := ComposeRun(environ, run, "logs", r);
  }

  /** The arguments of a scale request: `up --no-recreate --detach --scale svc=N`. */
  function ScaleArgs(service: string, replicas: nat): seq<string> {
    ["--no-recreate", "--detach", "--scale", service + "=" + FormatNat(replicas)]
  }

  /**
   * POST compose scale: an empty service or a negative replica count is a
   * bad request and runs nothing (zero replicas is allowed); otherwise
   * `up` runs with the forced scale arguments and no environment overlay.
   */
  method ComposeScale(environ: seq<string>, run: Command -> Outcome, req: ScaleRequest)
    returns (cmd: Option<Command>, reply: Reply)
    ensures req.service == "" || req.replicas < 0 ==>
              cmd.None? && reply == ErrorReply(StatusBadRequest, ScaleInvalid)
    ensures req.service != "" && req.replicas >= 0 ==>
              RunsCompose(environ, run, "up", RunRequest(req.filePath, req.workDir, map[], ScaleArgs(req.service, req.replicas as nat)), cmd, reply)
    ensures cmd.Some? ==> cmd.value.env.None? && |cmd.value.argv| == 8
  {
    if req.service == "" || req.replicas < 0 {
      return None, ErrorReply(StatusBadRequest, ScaleInvalid);
    }
    var runReq := RunRequest(req.filePath, req.workDir, map[], ScaleArgs(req.service, req.replicas as nat));
    cmd, reply := ComposeRun(environ, run, "up", runReq);
  }

  /**
   * The scale argument names the service and the replica count: splitting
   * it after the service and its `=` gives back the count.
   */
  lemma ScaleArgRoundTrip(service: string, replicas: Int64)
    requires replicas >= 0
    ensures var a := ScaleArgs(service, replicas as nat)[3];
            HasPrefix(a, service + "=") && ParseInt64(a[|service| + 1..]) == Some(replicas as int)
  {
    var a := ScaleArgs(service, replicas as nat)[3];
    assert a[..|service| + 1] == service + "=";
    assert a[|service| + 1..] == FormatNat(replicas as nat);
    ParseFormatRoundTrip(replicas as nat);
  }

  // ---------------------------------------------------------------------
  // Upload and get-file
  // ---------------------------------------------------------------------

  /** The reply of a handler, and the file it wrote or read (if any). */
  datatype FileResult = FileResult(reply: Reply, file: Option<string>)

  /**
   * POST compose upload: name and content are required; the destination is
   * SafeJoin(base, name), and the content is written there.
   */
  function Upload(cwd: string, base: string, req: UploadRequest, write: (string, string) -> Option<string>): (r: FileResult)
    ensures req.name == "" || req.content == "" ==>
              r == FileResult(ErrorReply(StatusBadRequest, UploadInvalid), None)
    ensures r.file.Some? ==> SafeJoin(cwd, base, req.name) == Ok(r.file.value) && HasPrefix(r.file.value, Abs(cwd, base))
    ensures r.reply.status == StatusOK <==> r.file.Some? && write(r.file.value, req.content).None?
    ensures r.reply.status == StatusOK ==> r.reply.body == map["path" := Str(r.file.value)]
    ensures req.name != "" && req.content != "" && SafeJoin(cwd, base, req.name).Err? ==>
              r == FileResult(ErrorReply(StatusBadRequest, EscapesBase), None)
    ensures req.name != "" && req.content != "" && SafeJoin(cwd, base, req.name).Ok? ==>
              r.file == Some(SafeJoin(cwd, base, req.name).value)
    ensures req.name != "" && req.content != "" && SafeJoin(cwd, base, req.name).Ok? &&
            write(SafeJoin(cwd, base, req.name).value, req.content).Some? ==>
              r.reply == ErrorReply(StatusInternalServerError, write(SafeJoin(cwd, base, req.name).value, req.content).value)
  {
    if req.name == "" || req.content == "" then
      FileResult(ErrorReply(StatusBadRequest, UploadInvalid), None)
    else
      match SafeJoin(cwd, base, req.name)
      case Err(e) => FileResult(ErrorReply(StatusBadRequest, e), None)
      case Ok(dest) =>
        match write(dest, req.content)
        case Some(e) => FileResult(ErrorReply(StatusInternalServerError, e), Some(dest))
        case None => FileResult(Reply(StatusOK, map["path" := Str(dest)]), Some(dest))
  }

  /**
   * GET compose file: an absolute path is taken as given, a relative one
   * goes through SafeJoin; either way the absolute target must have the
   * absolute base as a string prefix before it is read.
   */
  function GetFile(cwd: string, base: string, path: string, read: string -> Result<string>): (r: FileResult)
    ensures path == "" ==> r == FileResult(ErrorReply(StatusBadRequest, PathRequired), None)
    ensures r.file.Some? ==> HasPrefix(r.file.value, Abs(cwd, base))
    ensures IsAbs(path) ==> (r.file.Some? <==> HasPrefix(Clean(path), Abs(cwd, base)))
    ensures IsAbs(path) && r.file.Some? ==> r.file.value == Clean(path)
    ensures path != "" && r.file.None? ==> r.reply == ErrorReply(StatusBadRequest, EscapesBase)
    ensures r.file.Some? && read(r.file.value).Err? ==>
              r.reply == ErrorReply(StatusInternalServerError, read(r.file.value).error)
    ensures r.reply.status == StatusOK <==> r.file.Some? && read(r.file.value).Ok?
    ensures r.reply.status == StatusOK ==>
              r.reply.body == map["name" := Str(Base(r.file.value)), "content" := Str(read(r.file.value).value)]
  {
    if path == "" then FileResult(ErrorReply(StatusBadRequest, PathRequired), None)
    else
      var target := if IsAbs(path) then Ok(path) else SafeJoin(cwd, base, path);
      match target
      case Err(e) => FileResult(ErrorReply(StatusBadRequest, e), None)
      case Ok(t) =>
        var absBase := Abs(cwd, base);
        var absTarget := Abs(cwd, t);
        if |absTarget| < |absBase| || absTarget[..|absBase|] != absBase then
          FileResult(ErrorReply(StatusBadRequest, EscapesBase), None)
        else
          match read(absTarget)
          case Err(e) => FileResult(ErrorReply(StatusInternalServerError, e), Some(absTarget))
          case Ok(content) =>
            FileResult(Reply(StatusOK, map["name" := Str(Base(absTarget)), "content" := Str(content)]), Some(absTarget))
  }

  /**
   * For a relative path the second containment test never rejects: the
   * path SafeJoin accepted is read, and it is already absolute and clean.
   */
  lemma GetFileRelative(cwd: string, base: string, path: string, read: string -> Result<string>)
    requires IsAbs(cwd) && path != "" && !IsAbs(path)
    ensures GetFile(cwd, base, path, read).file ==
              if SafeJoin(cwd, base, path).Ok? then Some(SafeJoin(cwd, base, path).value) else None
  {
    if SafeJoin(cwd, base, path).Ok? {
      SafeJoinResultClean(cwd, base, path);
    }
  }
}
