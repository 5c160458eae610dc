/**
 * Image references (utils/docker.go) and the image-presence resolution of
 * the create-container handler (containers.go), with the query defaults of
 * the logs handler and the validation of the exec handler.
 *
 * The engine is three oracles: `lookup` (ImageList filtered by reference:
 * the number of images found, or an error), `pull` (ImagePull of a
 * reference for a platform: None on success, the error text otherwise) and
 * `create` (ContainerCreate with the final image: the new id or an error).
 */
module Containers {
  import opened Text
  import opened Handler

  // ---------------------------------------------------------------------
  // Reference predicates
  // ---------------------------------------------------------------------

  /** A ':' occurs at an index before every '@' (a tag, or a registry port). */
  predicate HasTag(ref: string) {
    exists i :: 0 <= i < |ref| && ref[i] == ':' && '@' !in ref[..i]
  }

  predicate HasSlash(ref: string) {
    exists i :: 0 <= i < |ref| && ref[i] == '/'
  }

  /** utils.ContainsColon: scans for ':' and gives up at the first '@'. */
  method ContainsColon(ref: string) returns (b: bool)
    ensures b <==> HasTag(ref)
  {
    var i := 0;
    while i < |ref|
      invariant 0 <= i <= |ref|
      invariant ':' !in ref[..i] && '@' !in ref[..i]
    {
      if ref[i] == ':' {
        assert ref[..i + 1][..i] == ref[..i];
        return true;
      }
      if ref[i] == '@' {
        assert !HasTag(ref) by {
          forall j | 0 <= j < |ref| && ref[j] == ':' ensures '@' in ref[..j] {
            assert j > i;
            assert ref[..j][i] == '@';
          }
        }
        return false;
      }
      assert ref[..i + 1] == ref[..i] + [ref[i]];
      i := i + 1;
    }
    assert ref[..i] == ref;
    return false;
  }

  /** utils.ContainsSlash */
  method ContainsSlash(ref: string) returns (b: bool)
    ensures b <==> HasSlash(ref)
  {
    var i := 0;
    while i < |ref|
      invariant 0 <= i <= |ref|
      invariant forall j :: 0 <= j < i ==> ref[j] != '/'
    {
      if ref[i] == '/' {
        return true;
      }
      i := i + 1;
    }
    return false;
  }

  /** Without a digest, having a tag is containing a ':' anywhere. */
  lemma HasTagWithoutDigest(ref: string)
    requires '@' !in ref
    ensures HasTag(ref) <==> ':' in ref
  {
    if ':' in ref {
      var i :| 0 <= i < |ref| && ref[i] == ':';
      assert '@' !in ref[..i] by {
        forall j | 0 <= j < i ensures ref[..i][j] != '@' {
          assert ref[..i][j] == ref[j];
        }
      }
    }
  }

  /** A ':' that comes only after the digest's '@' is not a tag. */
  lemma DigestIsNotTag(name: string, digest: string)
    requires ':' !in name
    ensures !HasTag(name + "@" + digest)
  {
    var ref := name + "@" + digest;
    forall i | 0 <= i < |ref| && ref[i] == ':' ensures '@' in ref[..i] {
      assert forall j :: 0 <= j < |name| ==> ref[j] == name[j];
      assert ref[..i][|name|] == '@';
    }
  }

  /** A registry port counts as a tag: "host:5000/img". */
  lemma RegistryPortIsTag(host: string, rest: string)
    requires '@' !in host
    ensures HasTag(host + ":" + rest)
  {
    var ref := host + ":" + rest;
    assert ref[|host|] == ':';
    assert ref[..|host|] == host;
  }

  lemma ExampleReferences()
    ensures !HasTag("") && !HasTag("nginx") && HasTag("nginx:1.25")
    ensures !HasSlash("nginx") && HasSlash("library/nginx")
  {
    HasTagWithoutDigest("nginx");
    HasTagWithoutDigest("nginx:1.25");
    assert "nginx:1.25"[5] == ':';
    assert "library/nginx"[7] == '/';
  }

  // ---------------------------------------------------------------------
  // Image-presence resolution (CreateContainerHandler)
  // ---------------------------------------------------------------------

  datatype CreateRequest = CreateRequest(image: string, name: string, cmd: seq<string>, env: seq<string>, platform: string)

  const ImageRequired: string := "image is required"
  const LibraryPrefix: string := "docker.io/library/"

  /** The image lookup found at least one image and did not fail. */
  predicate Found(lookup: string -> Result<nat>, ref: string) {
    lookup(ref).Ok? && lookup(ref).value > 0
  }

  /** The image is present locally, under its own reference or as `ref:latest` when untagged. */
  predicate IsLocal(lookup: string -> Result<nat>, ref: string) {
    Found(lookup, ref) || (!HasTag(ref) && Found(lookup, ref + ":latest"))
  }

  /** An untagged reference gains `:latest`. */
  function Latest(ref: string): string {
    if HasTag(ref) then ref else ref + ":latest"
  }

  /** The reply of a ContainerCreate call: 201 with the new id, or 500. */
  function CreatedReply(r: Result<string>): Reply {
    match r
    case Ok(id) => Reply(StatusCreated, map["Id" := Str(id)])
    case Err(e) => ErrorReply(StatusInternalServerError, e)
  }

  /**
   * The resolution the handler performs: the lookups, the pulls it tries
   * and the image it creates the container with. `pulls` and `lookups` are
   * the references passed to the engine, in order.
   */
  method CreateContainer(req: CreateRequest, lookup: string -> Result<nat>,
                         pull: (string, string) -> Option<string>, create: string -> Result<string>)
    returns (reply: Reply, lookups: seq<string>, pulls: seq<string>, image: Option<string>)
    ensures req.image == "" ==>
              reply == ErrorReply(StatusBadRequest, ImageRequired) && lookups == [] && pulls == [] && image.None?
    ensures req.image != "" ==>
              lookups == (if Found(lookup, req.image) || HasTag(req.image) then [req.image]
                          else [req.image, req.image + ":latest"])
    ensures |pulls| <= 2
    // Present locally: no pull; the name gains :latest only when it was found that way.
    ensures req.image != "" && Found(lookup, req.image) ==> pulls == [] && image == Some(req.image)
    ensures req.image != "" && !Found(lookup, req.image) && IsLocal(lookup, req.image) ==>
              pulls == [] && image == Some(req.image + ":latest")
    // Absent: the first pull is of the reference as given.
    ensures req.image != "" && !IsLocal(lookup, req.image) ==> |pulls| >= 1 && pulls[0] == req.image
    ensures req.image != "" && !IsLocal(lookup, req.image) && pull(req.image, req.platform).None? ==>
              pulls == [req.image] && image == Some(req.image)
    ensures req.image != "" && !IsLocal(lookup, req.image) && pull(req.image, req.platform).Some? && HasSlash(req.image) ==>
              pulls == [req.image] && image.None? &&
              reply == ErrorReply(StatusInternalServerError, pull(req.image, req.platform).value)
    ensures req.image != "" && !IsLocal(lookup, req.image) && pull(req.image, req.platform).Some? && !HasSlash(req.image) ==>
              pulls == [req.image, LibraryPrefix + req.image] &&
              (pull(LibraryPrefix + req.image, req.platform).Some? ==>
                 image.None? && reply == ErrorReply(StatusInternalServerError, pull(req.image, req.platform).value)) &&
              (pull(LibraryPrefix + req.image, req.platform).None? ==> image == Some(Latest(req.image)))
    // The container is created with the final image, and only then.
    ensures image.Some? ==> reply == CreatedReply(create(image.value))
  {
    lookups, pulls, image := [], [], None;
    if req.image == "" {
      reply := ErrorReply(StatusBadRequest, ImageRequired);
      return;
    }
    var ref := req.image;
    var hasLocal := false;
    lookups := lookups + [ref];
    var found := lookup(ref);
    if found.Ok? && found.value > 0 {
      hasLocal := true;
    }
    var tagged := ContainsColon(ref);
    if !hasLocal && !tagged {
      lookups := lookups + [ref + ":latest"];
      var found2 := lookup(ref + ":latest");
      if found2.Ok? && found2.value > 0 {
        hasLocal := true;
        ref := ref + ":latest";
      }
    }
    if !hasLocal {
      pulls := pulls + [ref];
      var err := pull(ref, req.platform);
      if err.Some? {
        var slash := ContainsSlash(ref);
        if !slash {
          pulls := pulls + [LibraryPrefix + ref];
          var secondErr := pull(LibraryPrefix + ref, req.platform);
          if secondErr.Some? {
            reply := ErrorReply(StatusInternalServerError, err.value);
            return;
          }
          var stillUntagged := ContainsColon(ref);
          if !stillUntagged {
            ref := ref + ":latest";
          }
        } else {
          reply := ErrorReply(StatusInternalServerError, err.value);
          return;
        }
      }
    }
    image := Some(ref);
    reply := CreatedReply(create(ref));
  }

  /** A lookup that fails is a miss, never an error: the handler goes on to pull. */
  lemma LookupErrorIsMiss(lookup: string -> Result<nat>, ref: string)
    requires lookup(ref).Err? && (HasTag(ref) || lookup(ref + ":latest").Err?)
    ensures !IsLocal(lookup, ref)
  {
  }

  // ---------------------------------------------------------------------
  // Logs and exec
  // ---------------------------------------------------------------------

  datatype LogsOptions = LogsOptions(tail: string, showStdout: bool, showStderr: bool)

  /**
   * The options of the logs handler from its query values: the tail
   * defaults to "200"; output is shown unless the value is exactly "false".
   */
  function LogsQuery(tail: string, stdout: string, stderr: string): (o: LogsOptions)
    ensures o.tail != ""
    ensures tail == "" ==> o.tail == "200"
    ensures tail != "" ==> o.tail == tail
    ensures !o.showStdout <==> stdout == "false"
    ensures !o.showStderr <==> stderr == "false"
  {
    LogsOptions(if tail == "" then "200" else tail, stdout != "false", stderr != "false")
  }

  const CmdRequired: string := "cmd required"

  /** The exec handler's request check: an empty command is a bad request. */
  function ExecCheck(cmd: seq<string>): (r: Option<Reply>)
    ensures r.Some? <==> cmd == []
    ensures r.Some? ==> r.value == ErrorReply(StatusBadRequest, CmdRequired)
  {
    if |cmd| == 0 then Some(ErrorReply(StatusBadRequest, CmdRequired)) else None
  }
}
