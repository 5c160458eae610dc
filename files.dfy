/**
 * The save-file handlers of handlers/files.go: a compose file or an nginx
 * configuration is saved under the relative directory "compose" after its
 * name is defaulted and given an extension. Creating the directory and
 * writing the file are oracles: the directory's error (if any) and a
 * `write` function giving the error (if any) of writing a path.
 */
module Files {
  import opened Text
  import opened FilePath
  import opened Handler

  datatype SaveRequest = SaveRequest(fileName: string, content: string)

  const ComposeDir: string := "compose"
  const DefaultComposeName: string := "docker-compose.yml"
  const DefaultNginxName: string := "nginx.conf"

  /** A compose file name has the extension .yml or .yaml. */
  predicate IsComposeName(name: string) {
    HasSuffix(name, ".yml") || HasSuffix(name, ".yaml")
  }

  /** The compose file name: "docker-compose.yml" for none, ".yml" appended unless it has a YAML extension. */
  function ComposeFileName(name: string): (r: string)
    ensures IsComposeName(r)
    ensures name == "" ==> r == DefaultComposeName
    ensures name != "" && IsComposeName(name) ==> r == name
    ensures name != "" && !IsComposeName(name) ==> r == name + ".yml"
  {
    var n := if name == "" then DefaultComposeName else name;
    if IsComposeName(n) then n else
      assert (n + ".yml")[|n|..] == ".yml";
      n + ".yml"
  }

  /** The nginx file name: "nginx.conf" for none, ".conf" appended unless already there. */
  function NginxFileName(name: string): (r: string)
    ensures HasSuffix(r, ".conf")
    ensures name == "" ==> r == DefaultNginxName
    ensures name != "" && HasSuffix(name, ".conf") ==> r == name
    ensures name != "" && !HasSuffix(name, ".conf") ==> r == name + ".conf"
  {
    var n := if name == "" then DefaultNginxName else name;
    if HasSuffix(n, ".conf") then n else
      assert (n + ".conf")[|n|..] == ".conf";
      n + ".conf"
  }

  /** Naming a compose file twice names it as once. */
  lemma ComposeFileNameIdempotent(name: string)
    ensures ComposeFileName(ComposeFileName(name)) == ComposeFileName(name)
  {
  }

  /** Naming an nginx file twice names it as once. */
  lemma NginxFileNameIdempotent(name: string)
    ensures NginxFileName(NginxFileName(name)) == NginxFileName(name)
  {
  }

  /** The path a file is saved at: the name joined under "compose", with no containment test. */
  function SavePath(name: string): string {
    Join(ComposeDir, name)
  }

  /**
   * Because the name is not checked, a name that climbs one level leaves the
   * compose directory: under a relative directory `d`, "../y" is saved at `y`.
   */
  lemma {:induction false} SaveOutsideDir(d: string, y: string)
    requires IsName(d) && IsName(y)
    ensures Join(d, ".." + [Separator] + y) == y
  {
    var p := d + [Separator] + (".." + [Separator] + y);
    SplitOnNoSeparator(d, Separator);
    SplitOnNoSeparator("..", Separator);
    SplitOnNoSeparator(y, Separator);
    SplitOnAppend("..", y, Separator);
    SplitOnAppend(d, ".." + [Separator] + y, Separator);
    assert Segments(p) == [d, "..", y];
    assert !IsAbs(p);
    assert [d, "..", y][..2] == [d, ".."] && [d, ".."][..1] == [d] && [d][..0] == [];
    assert Fold(false, [], [d]) == [d];
    assert Fold(false, [], [d, ".."]) == [];
    assert Fold(false, [], [d, "..", y]) == [y];
    assert JoinWith([y], Separator) == y;
  }

  /** The saved-file directory is a plain relative name. */
  lemma ComposeDirIsName()
    ensures IsName(ComposeDir) && !IsAbs(ComposeDir)
  {
  }

  /**
   * The rest of both handlers: create the directory, write the content
   * (which may be empty) at SavePath(name), and reply with the name and path.
   */
  method Save(name: string, content: string, mkdirErr: Option<string>, write: (string, string) -> Option<string>)
    returns (reply: Reply, written: Option<string>)
    ensures mkdirErr.Some? ==>
              written.None? && reply == ErrorReply(StatusInternalServerError, "Failed to create directory: " + mkdirErr.value)
    ensures mkdirErr.None? ==> written == Some(SavePath(name))
    ensures mkdirErr.None? && write(SavePath(name), content).Some? ==>
              reply == ErrorReply(StatusInternalServerError, "Failed to save file: " + write(SavePath(name), content).value)
    ensures reply.status == StatusOK <==> mkdirErr.None? && write(SavePath(name), content).None?
    ensures reply.status == StatusOK ==>
              reply.body == map["message" := Str("File saved successfully: " + name), "path" := Str(SavePath(name))]
  {
    written := None;
    if mkdirErr.Some? {
      reply := ErrorReply(StatusInternalServerError, "Failed to create directory: " + mkdirErr.value);
      return;
    }
    var filePath := Join(ComposeDir, name);
    written := Some(filePath);
    var err := write(filePath, content);
    if err.Some? {
      reply := ErrorReply(StatusInternalServerError, "Failed to save file: " + err.value);
      return;
    }
    reply := Reply(StatusOK, map["message" := Str("File saved successfully: " + name), "path" := Str(filePath)]);
  }

  /** POST save compose file. */
  method SaveComposeFile(req: SaveRequest, mkdirErr: Option<string>, write: (string, string) -> Option<string>)
    returns (reply: Reply, written: Option<string>)
    ensures mkdirErr.Some? ==>
              written.None? && reply == ErrorReply(StatusInternalServerError, "Failed to create directory: " + mkdirErr.value)
    ensures mkdirErr.None? ==> written == Some(SavePath(ComposeFileName(req.fileName)))
    ensures mkdirErr.None? && write(SavePath(ComposeFileName(req.fileName)), req.content).Some? ==>
              reply == ErrorReply(StatusInternalServerError, "Failed to save file: " + write(SavePath(ComposeFileName(req.fileName)), req.content).value)
    ensures reply.status == StatusOK <==> mkdirErr.None? && write(SavePath(ComposeFileName(req.fileName)), req.content).None?
    ensures reply.status == StatusOK ==>
              reply.body == map["message" := Str("File saved successfully: " + ComposeFileName(req.fileName)),
                                "path" := Str(SavePath(ComposeFileName(req.fileName)))]
  {
    var fileName := req.fileName;
    if fileName == "" {
      fileName := DefaultComposeName;
    }
    if !HasSuffix(fileName, ".yml") && !HasSuffix(fileName, ".yaml") {
      fileName := fileName + ".yml";
    }
    reply, written := Save(fileName, req.content, mkdirErr, write);
  }

  /** POST save nginx file. */
  method SaveNginxFile(req: SaveRequest, mkdirErr: Option<string>, write: (string, string) -> Option<string>)
    returns (reply: Reply, written: Option<string>)
    ensures mkdirErr.Some? ==>
              written.None? && reply == ErrorReply(StatusInternalServerError, "Failed to create directory: " + mkdirErr.value)
    ensures mkdirErr.None? ==> written == Some(SavePath(NginxFileName(req.fileName)))
    ensures mkdirErr.None? && write(SavePath(NginxFileName(req.fileName)), req.content).Some? ==>
              reply == ErrorReply(StatusInternalServerError, "Failed to save file: " + write(SavePath(NginxFileName(req.fileName)), req.content).value)
    ensures reply.status == StatusOK <==> mkdirErr.None? && write(SavePath(NginxFileName(req.fileName)), req.content).None?
    ensures reply.status == StatusOK ==>
              reply.body == map["message" := Str("File saved successfully: " + NginxFileName(req.fileName)),
                                "path" := Str(SavePath(NginxFileName(req.fileName)))]
  {
    var fileName := req.fileName;
    if fileName == "" {
      fileName := DefaultNginxName;
    }
    if !HasSuffix(fileName, ".conf") {
      fileName := fileName + ".conf";
    }
    reply, written := Save(fileName, req.content, mkdirErr, write);
  }
}
