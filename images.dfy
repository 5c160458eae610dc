/**
 * The image handlers of images.go (the build handler also in
 * handlers/images.go): building an image from an uploaded Dockerfile with
 * the `docker build` command line, and the request checks of image removal.
 *
 * The temporary Dockerfile is an effect in a trace: CreateTemp's result
 * (its path, or an error) is a parameter, and writing, running and removing
 * are recorded in order, so that the cleanup can be stated.
 */
module Images {
  import opened Text
  import opened Handler

  datatype BuildRequest = BuildRequest(imageName: string, dockerfile: string, contextPath: string, platform: string)

  /** What the build handler does to the outside world, in order. */
  datatype Effect = WriteTemp(path: string, content: string) | Run(cmd: Command) | RemoveTemp(path: string)

  const BuildInvalid: string := "image_name and dockerfile are required"

  /**
   * The argument vector of the build: `build [--platform p] -t name -f
   * dockerfile context`, the platform pair only when one is given.
   */
  function BuildArgv(req: BuildRequest, tmp: string, ctx: string): (argv: seq<string>)
    ensures |argv| >= 6 && argv[0] == "build"
    ensures argv[|argv| - 5..] == ["-t", req.imageName, "-f", tmp, ctx]
    ensures |argv| == 6 <==> req.platform == ""
    ensures req.platform != "" ==> |argv| == 8 && argv[1..3] == ["--platform", req.platform]
  {
    if req.platform == "" then ["build", "-t", req.imageName, "-f", tmp, ctx]
    else ["build", "--platform", req.platform, "-t", req.imageName, "-f", tmp, ctx]
  }

  /** The build context: the requested path, or "." when none is given. */
  function ContextOf(req: BuildRequest): (ctx: string)
    ensures ctx != ""
    ensures req.contextPath == "" ==> ctx == "."
    ensures req.contextPath != "" ==> ctx == req.contextPath
  {
    if req.contextPath == "" then "." else req.contextPath
  }

  /**
   * POST images build. Without an image name or a Dockerfile nothing
   * happens but a bad request. Otherwise the Dockerfile is written to the
   * temporary file, the build runs, and the temporary file is removed,
   * whatever the build's outcome.
   */
  method BuildImage(req: BuildRequest, temp: Result<string>, run: Command -> Outcome)
    returns (reply: Reply, effects: seq<Effect>)
    ensures req.imageName == "" || req.dockerfile == "" ==>
              reply == ErrorReply(StatusBadRequest, BuildInvalid) && effects == []
    ensures req.imageName != "" && req.dockerfile != "" && temp.Err? ==>
              reply == ErrorReply(StatusInternalServerError, temp.error) && effects == []
    ensures req.imageName != "" && req.dockerfile != "" && temp.Ok? ==>
              var cmd := Command(Docker, BuildArgv(req, temp.value, ContextOf(req)), "", None);
              effects == [WriteTemp(temp.value, req.dockerfile), Run(cmd), RemoveTemp(temp.value)] &&
              reply == RunReply(run(cmd), map["image" := Str(req.imageName)])
  {
    effects := [];
    if req.imageName == "" || req.dockerfile == "" {
      reply := ErrorReply(StatusBadRequest, BuildInvalid);
      return;
    }
    if temp.Err? {
      reply := ErrorReply(StatusInternalServerError, temp.error);
      return;
    }
    var tmpPath := temp.value;
    effects := effects + [WriteTemp(tmpPath, req.dockerfile)];
    var ctxPath := req.contextPath;
    if ctxPath == "" {
      ctxPath := ".";
    }
    var cmd := Command(Docker, ["build", "-t", req.imageName, "-f", tmpPath, ctxPath], "", None);
    if req.platform != "" {
      cmd := Command(Docker, ["build", "--platform", req.platform, "-t", req.imageName, "-f", tmpPath, ctxPath], "", None);
    }
    effects := effects + [Run(cmd)];
    var outcome := run(cmd);
    reply := RunReply(outcome, map["image" := Str(req.imageName)]);
    // The deferred os.Remove.
    effects := effects + [RemoveTemp(tmpPath)];
  }

  /**
   * Every temporary file the build writes is removed, after the command ran
   * and as the last effect, on success and on failure alike.
   */
  lemma BuildRemovesTemp(req: BuildRequest, temp: Result<string>, run: Command -> Outcome,
                         reply: Reply, effects: seq<Effect>, i: nat)
    requires req.imageName != "" && req.dockerfile != "" && temp.Ok? ==>
               var cmd := Command(Docker, BuildArgv(req, temp.value, ContextOf(req)), "", None);
               effects == [WriteTemp(temp.value, req.dockerfile), Run(cmd), RemoveTemp(temp.value)]
    requires req.imageName == "" || req.dockerfile == "" || temp.Err? ==> effects == []
    requires i < |effects| && effects[i].WriteTemp?
    ensures effects[|effects| - 1] == RemoveTemp(effects[i].path)
    ensures forall j :: i < j < |effects| - 1 ==> effects[j].Run?
  {
  }

  /** The success reply names the image; a failure carries the error instead. */
  lemma BuildReplyFields(o: Outcome, name: string)
    ensures var r := RunReply(o, map["image" := Str(name)]);
            (o.failure.None? ==> r.body["image"] == Str(name)) &&
            (o.failure.Some? ==> "image" !in r.body && r.body["error"] == Str(o.failure.value))
  {
  }

  // ---------------------------------------------------------------------
  // DELETE images/{ref}
  // ---------------------------------------------------------------------

  const RefRequired: string := "image ref required"

  datatype RemoveOptions = RemoveOptions(force: bool, pruneChildren: bool)

  /** force and pruneChildren hold exactly when their query value is "true". */
  function RemoveQuery(force: string, pruneChildren: string): (o: RemoveOptions)
    ensures o.force <==> force == "true"
    ensures o.pruneChildren <==> pruneChildren == "true"
  {
    RemoveOptions(force == "true", pruneChildren == "true")
  }

  /**
   * The removal handler: an empty reference is a bad request and removes
   * nothing; otherwise `remove` (ImageRemove) is called with the parsed
   * options, and its error is a 500.
   */
  function DeleteImage(ref: string, force: string, pruneChildren: string,
                       remove: (string, RemoveOptions) -> Option<string>): (r: Reply)
    ensures ref == "" ==> r == ErrorReply(StatusBadRequest, RefRequired)
    ensures ref != "" && remove(ref, RemoveQuery(force, pruneChildren)).Some? ==>
              r == ErrorReply(StatusInternalServerError, remove(ref, RemoveQuery(force, pruneChildren)).value)
    ensures r.status == StatusOK <==> ref != "" && remove(ref, RemoveQuery(force, pruneChildren)).None?
    ensures r.status == StatusOK ==> r.body == map["status" := Str("deleted"), "ref" := Str(ref)]
  {
    if ref == "" then ErrorReply(StatusBadRequest, RefRequired)
    else
      match remove(ref, RemoveQuery(force, pruneChildren))
      case Some(e) => ErrorReply(StatusInternalServerError, e)
      case None => Reply(StatusOK, map["status" := Str("deleted"), "ref" := Str(ref)])
  }
}
