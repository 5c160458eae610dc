# Docker backend: request-to-operation translation, in Dafny

This project models the layer of a small Go backend for Docker that turns
HTTP requests into engine calls and `docker` command lines. Each handler
validates a request, fills in defaults and builds a command or an engine
call. The model covers the following:

- the `ls -la` long-listing parser of the volume browser and the browse
  command line (`handlers/volumes.go`);
- the lexical path sandbox `SafeJoin` and the upload and get-file handlers
  built on it (`compose.go`, copied in `handlers/compose.go`);
- `ComposeRun`, which builds `docker compose -f <file> <subcmd> ...`, and
  the Up/Down/Ps/Logs/Scale handlers that shape its arguments;
- the image-presence resolution of the create-container handler: local
  lookup, `:latest` retry, pull, and the `docker.io/library/` pull
  fallback (`containers.go`), with the reference predicates of
  `utils/docker.go`;
- the image build command line, with its temporary Dockerfile and deferred
  removal, and the image-removal checks (`images.go`,
  `handlers/images.go`);
- the file-name defaulting of the save-file handlers (`handlers/files.go`);
- `splitAndTrim` and the port and CORS-origin defaults of `main.go`.

The model does not execute anything. The engine, the file system and the
subprocesses are passed in as function parameters (oracles):

- `run` gives a command's combined output and its error;
- `lookup` and `pull` stand for ImageList and ImagePull;
- `create` stands for ContainerCreate;
- `write` and `read` stand for the file operations;
- `remove` stands for ImageRemove.

Effects whose order matters are recorded as traces and stated in the
contracts: the temporary Dockerfile's write, run and removal; the lookups
and pulls of the image resolution. Go's `strings`, `strconv` and
`path/filepath` functions that the handlers rely on are modelled in modules
`Text` and `FilePath`. `Clean`, `Join` and `Abs` follow the lexical rules of
filepath on a `/` separator: collapse `.`, `..` and repeated separators,
and clamp `..` at the root. The working directory used by `Abs` is a
parameter.

Modules: `Text`, `FilePath`, `Handler` (replies and command descriptors),
`Sandbox`, `Compose`, `Containers`, `Images`, `Files`, `Server`, `Volumes`.

**The sandbox has no separator guard.** `SafeJoin` (`compose.go:33`,
`handlers/compose.go:41`) tests whether the absolute base is a string
prefix of the absolute result, with no separator appended to the base.
`Sandbox.SafeJoinSiblingLeak` proves the consequence: for a base
`/data/compose`, a name such as `../compose-x/f` is accepted although it
resolves outside the base directory. `Sandbox.ExampleSiblingAccepted`
shows that concrete instance.

## Model

| member | source | states |
|---|---|---|
| Sandbox.SafeJoin | compose.go:27-37 | on success the result is Abs(Join(base, name)) and Abs(base) is a string prefix of it; it fails with "path escapes base" exactly when that prefix test fails; the copy at handlers/compose.go:31-45 is the same |
| Sandbox.SafeJoinAsSegments | compose.go:27-36 | SafeJoin as a fold of the name's segments onto the normalised base, accepted exactly when the rendered base is a prefix of the rendered result |
| Sandbox.SafeJoinResultClean | compose.go:28-29 | an accepted path is absolute and already lexically clean |
| Sandbox.SafeJoinLeadingSeparator | compose.go:28 | a leading `/` in the name does not make it absolute: the result equals that of the name without it |
| Sandbox.SafeJoinAcceptsDescending | compose.go:27-36 | a name with no `..` segment is always accepted and resolves to the base followed by the name's own components |
| Sandbox.SafeJoinChild | compose.go:27-36 | for a clean absolute base, a relative path of plain names resolves to `base/names` |
| Sandbox.SafeJoinClimbOne | compose.go:31-34 | `../y` resolves to the sibling `y` of the base and is accepted exactly when the base string is a prefix of that sibling path |
| Sandbox.SafeJoinSiblingLeak | compose.go:33 | with no separator guard, `../<last><t>/rest` is accepted, starts with `base + t`, and is neither the base nor below it |
| Sandbox.ExampleClimbRejected | compose.go:31-34 | for base `/data/compose`, `../secrets` is rejected with "path escapes base" |
| Sandbox.ExampleSiblingAccepted | compose.go:33 | for base `/data/compose`, `../compose-x/f` is accepted, lies under `/data/compose-x`, and is not within the base |
| FilePath.CleanIdempotent | compose.go:29 | cleaning a cleaned path changes nothing |
| FilePath.CleanKeepsAbs | compose.go:29 | cleaning keeps a path absolute or relative |
| FilePath.AbsIsCleanAbsolute | compose.go:29 | with an absolute working directory, Abs gives an absolute, clean path |
| FilePath.FoldWithoutDotDot | compose.go:28 | joining segments with no `..` only appends the non-empty, non-`.` names |
| FilePath.DirOfChild | compose.go:129 | the default working directory of `/d/f.yml` (d clean and absolute) is `/d` |
| FilePath.DirOfPlainName | compose.go:129 | the default working directory of a bare file name is `.` |
| Compose.Overlay | compose.go:133-138 | the loop appends one `k=v` per overlay entry to the inherited environment, in some iteration order of the map |
| Compose.OverlayContents | compose.go:133-138 | the overlaid environment has the inherited one as its prefix, `|environ| + |m|` entries, every `k=v` of the map, and nothing else |
| Compose.OverlayOfEmpty | compose.go:133 | an empty overlay leaves the inherited environment unchanged |
| Compose.EnumeratesSize | compose.go:135 | a map iteration that visits each key once has as many steps as the map has keys |
| Compose.ComposeRun | compose.go:123-144 | no file path gives 400 "file_path required" and runs nothing; otherwise exactly one `docker compose -f <file> <subcmd> <args...>` runs, in the request's working directory or else the file's directory, with the environment inherited when the overlay is empty and overlaid otherwise, and its outcome is the reply; the copy at handlers/compose.go:140-169 is the same |
| Compose.ComposeRunFailure | compose.go:139-141 | a failing command gives 500 with success=false and the captured output |
| Compose.ComposeUp | compose.go:146-151 | ComposeRun "up" with the caller's arguments followed by `-d`, which is the last argument; the copy at handlers/compose.go:171-179 is the same |
| Compose.ComposeDown | compose.go:153-157 | ComposeRun "down" with the request unchanged |
| Compose.ComposePs | compose.go:159-163 | ComposeRun "ps" with the request unchanged |
| Compose.ComposeLogs | compose.go:165-171 | ComposeRun "logs" with `--no-color --tail 200` exactly when the caller gave no arguments, the caller's arguments otherwise; the copy at handlers/compose.go:199-210 is the same |
| Compose.ComposeScale | compose.go:173-180 | an empty service or a negative count is 400 and runs nothing; otherwise `up --no-recreate --detach --scale svc=N` runs with no environment overlay; the copy at handlers/compose.go:212-225 is the same |
| Compose.ScaleArgRoundTrip | compose.go:178 | the scale argument starts with `svc=` and the rest parses back to the replica count |
| Compose.Upload | compose.go:75-91 | name and content are required; with both given and SafeJoin accepting the name, the content is written at SafeJoin(base, name), whose absolute base is its prefix, and nowhere else; 200 with {"path"} exactly when that write succeeds, 500 with the write's error when it fails; a sandbox rejection is 400 "path escapes base"; the copy at handlers/compose.go:72-97 is the same |
| Compose.GetFile | compose.go:95-121 | an empty path is 400; anything read has the absolute base as a string prefix; an absolute path is read, as its clean form, exactly when that prefix test passes; a path that escapes is 400 "path escapes base", whether SafeJoin or the prefix test rejects it; a failed read is 500 with the read's error; 200 with {name: Base, content} exactly when the read succeeds; the copy at handlers/compose.go:101-138 is the same |
| Compose.GetFileRelative | compose.go:108-116 | for a relative path the second containment test never rejects: the file read is the one SafeJoin accepted |
| Containers.ContainsColon | utils/docker.go:22-32 | the scan returns true exactly when a `:` occurs before every `@`; so without `@`, having a tag is containing `:` (Containers.HasTagWithoutDigest) |
| Containers.ContainsSlash | utils/docker.go:34-41 | the scan returns true exactly when the reference has a `/` |
| Containers.DigestIsNotTag | utils/docker.go:27-29 | a `:` that only follows the digest's `@` is not a tag |
| Containers.RegistryPortIsTag | utils/docker.go:23-25 | a registry port (`host:5000/img`) counts as a tag |
| Containers.ExampleReferences | utils/docker.go:22-41 | "" and "nginx" are untagged, "nginx:1.25" is tagged; "library/nginx" has a slash |
| Containers.CreateContainer | containers.go:46-124 | an empty image is 400 with no engine call. Otherwise the lookups are the image and, if it is untagged and not found, `image:latest`. A local image is never pulled, and gains `:latest` only when found that way. An absent image is pulled as given first. On failure, a name without `/` is retried as `docker.io/library/<name>`, which gains `:latest` if untagged. Any other failure is 500 with the first pull's error. The container is created with the final image, and only then. A failed lookup counts as a miss, never an error (Containers.LookupErrorIsMiss) |
| Containers.LogsQuery | containers.go:224-227 | an empty tail becomes "200", any other tail is kept; stdout and stderr are shown unless the value is exactly "false" |
| Containers.ExecCheck | containers.go:245 | an empty command is 400 "cmd required", any other command passes |
| Images.BuildArgv | images.go:63-66 | `build [--platform p] -t name -f dockerfile ctx`, with six arguments exactly when no platform is given |
| Images.ContextOf | images.go:57-60 | the build context is the requested path, or "." when it is empty |
| Images.BuildImage | images.go:35-83 | a missing name or Dockerfile is 400 with no effect; a failed temp file is 500 with no effect; otherwise the effects are exactly write temp, run build, remove temp, and the reply is the build's outcome plus {"image"}; the copy at handlers/images.go:36-84 is the same |
| Images.BuildRemovesTemp | images.go:52-55 | every temporary file written is removed, as the last effect, after the build ran |
| Images.BuildReplyFields | images.go:69-82 | success names the image; failure carries the error and no image |
| Images.RemoveQuery | images.go:103-104 | force and pruneChildren hold exactly when their query value is "true" |
| Images.DeleteImage | images.go:86-112 | an empty reference is 400 "image ref required"; otherwise ImageRemove gets the parsed options, and the reply is 200 {"status": "deleted", "ref"} exactly when it succeeds, and 500 with its error otherwise |
| Files.ComposeFileName | handlers/files.go:28-35 | empty becomes "docker-compose.yml"; a `.yml` or `.yaml` name is kept; anything else gains `.yml`; the result always has a YAML extension |
| Files.NginxFileName | handlers/files.go:65-72 | empty becomes "nginx.conf"; a `.conf` name is kept; anything else gains `.conf` |
| Files.ComposeFileNameIdempotent | handlers/files.go:28-35 | naming a compose file twice gives the same name as once |
| Files.NginxFileNameIdempotent | handlers/files.go:65-72 | naming an nginx file twice gives the same name as once |
| Files.ComposeDirIsName | handlers/files.go:38 | the save directory "compose" is one relative name |
| Files.SaveOutsideDir | handlers/files.go:45 | the name is not checked: under a relative directory `d`, the name `../y` is saved at `y`, outside `d` |
| Files.Save | handlers/files.go:37-54 | a directory error is 500 and writes nothing; otherwise the content is written at `compose/<name>` and 200 {message, path} is returned exactly when the write succeeds |
| Files.SaveComposeFile | handlers/files.go:20-55 | with the name ComposeFileName(fileName): a directory error writes nothing and is 500 "Failed to create directory: …"; otherwise the content is written at SavePath(name), a write error is 500 "Failed to save file: …", and 200 with the message and path exactly when the write succeeds |
| Files.SaveNginxFile | handlers/files.go:57-92 | with the name NginxFileName(fileName): a directory error writes nothing and is 500 "Failed to create directory: …"; otherwise the content is written at SavePath(name), a write error is 500 "Failed to save file: …", and 200 with the message and path exactly when the write succeeds |
| Server.NonBlank | main.go:14-24 | at most one piece per part |
| Server.NonBlankPieces | main.go:17-21 | every piece kept is non-empty and trimmed |
| Server.NonBlankSnoc | main.go:17-21 | one more part adds its trimmed form at the end exactly when that form is not empty |
| Server.NonBlankAppend | main.go:14-24 | the pieces of a concatenation are the pieces of each part, in order |
| Server.NonBlankOfNonBlank | main.go:17-21 | trimmed, non-empty pieces are kept unchanged |
| Server.NonBlankIdempotent | main.go:14-24 | splitting and trimming the pieces again changes nothing |
| Server.SplitAndTrim | main.go:14-24 | the loop yields NonBlank of the split |
| Server.Port | main.go:27-30 | the port is PORT, or "8081" when unset |
| Server.KeepNonEmpty | main.go:39-43 | the loop over splitAndTrim's pieces keeps all of them |
| Server.OriginList | main.go:38-46 | the origins are the non-blank pieces, or the two local defaults when there are none; never empty |
| Server.Origins | main.go:34-46 | the origins of CORS_ORIGINS, whose default text is the two local origins; never empty |
| Server.TwoOrigins | main.go:34-37 | two trimmed origins joined by a comma read back as those two |
| Text.TrimSpaceRemovesOnlySpace | main.go:18 | strings.TrimSpace removes white space at either end and nothing else |
| Text.TrimSpaceIdempotent | main.go:18 | trimming twice is trimming once |
| Text.JoinSplit | main.go:15 | joining the pieces of a split with the delimiter gives the string back |
| Text.SplitJoin | main.go:15 | splitting a join of pieces without the delimiter gives the pieces back |
| Text.FieldsOfJoin | handlers/volumes.go:170 | the fields of non-empty words joined by single spaces are those words |
| Text.ParseFormatRoundTrip | handlers/volumes.go:186 | the decimal text of any size up to the int64 maximum parses back to it |
| Text.ParseInt64RejectsNonDigit | handlers/volumes.go:186 | a text with a non-digit (other than a leading sign) is not a 64-bit decimal number |
| Volumes.ChildPath | handlers/volumes.go:203-208 | the path is `/name` under "/" and `dir + "/" + name` otherwise; either way it ends with `/name` |
| Volumes.ParseFields | handlers/volumes.go:170-190 | a record needs at least nine fields and is well formed; its size is the parsed size field, or 0 when that field does not parse |
| Volumes.UnparsableSizeIsZero | handlers/volumes.go:186-190 | a line whose size field has a non-digit is kept, with the size 0 |
| Volumes.ParseLine | handlers/volumes.go:163-221 | a record comes only from a non-blank trimmed line without "total" and with at least nine fields. It is well formed: its name is not empty, "." or "..", mode equals permissions, isDir holds iff the mode starts with `d`, and its path is ChildPath(dir, name) |
| Volumes.ParseLines | handlers/volumes.go:160-222 | at most one record per line |
| Volumes.ParseLsOutput | handlers/volumes.go:157-226 | the loop yields ParseLines of the lines of the trimmed output |
| Volumes.ParseLinesAppend | handlers/volumes.go:163-222 | line order is kept: the records of a concatenation are the concatenation of the records |
| Volumes.ParseOneLine | handlers/volumes.go:163-222 | one line yields its own record or nothing |
| Volumes.ParseLinesWellFormed | handlers/volumes.go:176-217 | every record of a listing is well formed |
| Volumes.RootRecords | handlers/volumes.go:203-205 | under "/" every record's path is `/` + its name |
| Volumes.ParseListingLine | handlers/volumes.go:170-217 | eight fields followed by the words of a name, joined by single spaces, read back as that record. The name is the words joined by spaces, the size is the decimal field, the modification time is fields 5-7, and the directory flag comes from the mode |
| Volumes.NameWithTotalDropped | handlers/volumes.go:165-167 | a line whose name contains "total" (such as `totals.txt`) yields no record |
| Volumes.ShortLineSkipped | handlers/volumes.go:171-174 | a line with fewer than nine fields yields no record, not an error |
| Volumes.BrowsePath | handlers/volumes.go:128-131 | the browsed path is the query's, or "/" when it is empty |
| Volumes.BrowseArgv | handlers/volumes.go:136 | exactly `run --rm -v <vol>:/volume alpine:latest ls -la /volume<path>`, element by element |
| Volumes.BrowseVolume | handlers/volumes.go:126-155 | the listing command runs once; a failure is "Failed to browse volume: " + error with no records; otherwise the records are ParseLines of its trimmed output under the browsed path |

## Left out

- Docker SDK calls other than the ones the resolution and removal logic needs are not modelled. That covers listing, start/stop, inspect, stats, prune and the volume CRUD handlers: they pass requests straight to the engine.
- ImageList, ImagePull, ContainerCreate and ImageRemove are oracle parameters. ContainerCreate's other settings (name, cmd, env) pass through unchanged and are not modelled.
- Process execution, file I/O, and reading and closing pull streams are oracles or are not modelled. Contexts with deadlines, logging and `defer cli.Close()` are not modelled.
- ComposeBaseDir, which reads COMPOSE_DIR, calls Getwd and creates the directory, is not modelled: the base directory and the working directory are parameters. The errors filepath.Abs returns when Getwd fails are not modelled either.
- The ComposeListFiles handlers (directory walks) are not modelled.
- Malformed JSON bodies ("invalid JSON body", "Invalid request body") are not modelled: requests are already-decoded values.
- Volumes.ParseLine: ModTime keeps the text of the three time fields. Parsing that text with time.Parse, and the fallback to the clock when it does not parse, are not modelled because both depend on the wall clock.
- Containers.CreateContainer: the platform is only passed through to the pull oracle.
- Compose.Overlay: Go's map iteration order is not fixed, so the overlay is specified up to the order of the added entries.
- Server.SplitAndTrim: the delimiter is one character, as at its only call site (",").
- Strings are sequences of characters. Go indexes strings by byte and splits and trims by rune; the model does not distinguish bytes from runes.
- JSON encoding is not modelled; the body of a reply is a map of string and boolean values. A nil slice encodes as null, but Volumes.BrowseVolume's `files` is an empty sequence.
- Containers.CreatedReply: the 201 body carries only "Id"; the "Warnings" field of the engine's create response is not modelled.
- CPU and memory percentages of the stats handler are not modelled because they are floating-point arithmetic.
