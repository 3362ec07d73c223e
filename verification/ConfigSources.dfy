/** The `--config` sources of a collector: how they are found on a command line, and what they resolve to. */
module ConfigSources {
  import opened Text

  // ----- the command line -----

  predicate IsConfigFlag(name: string) {
    name == "--config" || name == "-config"
  }

  /** The `--config` values of an argument list, in order. */
  function ConfigFlags(args: seq<string>): seq<string> {
    if args == [] then []
    else
      var k := IndexOf(args[0], '=');
      if !IsConfigFlag(args[0][..k]) then ConfigFlags(args[1..])
      else if k < |args[0]| then [args[0][k + 1..]] + ConfigFlags(args[1..])
      else if |args| > 1 then [args[1]] + ConfigFlags(args[2..])
      else []
  }

  /** One argument of the list read at position `i`. */
  lemma {:induction false} ConfigFlagsAt(args: seq<string>, i: nat)
    requires i < |args|
    ensures var k := IndexOf(args[i], '=');
            ConfigFlags(args[i..]) ==
              if !IsConfigFlag(args[i][..k]) then ConfigFlags(args[i + 1..])
              else if k < |args[i]| then [args[i][k + 1..]] + ConfigFlags(args[i + 1..])
              else if i + 1 < |args| then [args[i + 1]] + ConfigFlags(args[i + 2..])
              else []
  {
    assert args[i..][1..] == args[i + 1..];
    assert i + 1 < |args| ==> args[i..][2..] == args[i + 2..] && args[i..][1] == args[i + 1];
  }

  method ParseConfigFlags(args: seq<string>) returns (uris: seq<string>)
    ensures uris == ConfigFlags(args)
  {
    uris := [];
    var i := 0;
    while i < |args|
      invariant 0 <= i <= |args|
      invariant uris + ConfigFlags(args[i..]) == ConfigFlags(args)
    {
      ConfigFlagsAt(args, i);
      var arg := args[i];
      var k := IndexOf(arg, '=');
      var isFlag := IsConfigFlag(arg[..k]);
      if isFlag && k < |arg| {
        Regroup(uris, arg[k + 1..], ConfigFlags(args[i + 1..]));
        uris := uris + [arg[k + 1..]];
      } else if isFlag && i + 1 < |args| {
        Regroup(uris, args[i + 1], ConfigFlags(args[i + 2..]));
        uris := uris + [args[i + 1]];
        i := i + 1;
      }
      i := i + 1;
    }
  }

  lemma {:induction false} Regroup(front: seq<string>, x: string, rest: seq<string>)
    ensures front + ([x] + rest) == (front + [x]) + rest
  {
  }

  /** The forms of the flag: with one dash or two, its value after `=` or in the next argument; a flag at the very end has
      none. Other arguments are passed over. */
  lemma {:induction false} FlagForms(flag: string, value: string, rest: seq<string>)
    requires flag == "--config" || flag == "-config"
    ensures ConfigFlags([flag + "=" + value] + rest) == [value] + ConfigFlags(rest)
    ensures ConfigFlags([flag, value] + rest) == [value] + ConfigFlags(rest)
    ensures ConfigFlags([flag]) == []
  {
    var joined := flag + "=" + value;
    FlagEnds(flag, value);
    assert joined[..|flag|] == flag && joined[|flag| + 1..] == value;
    assert ([joined] + rest)[1..] == rest && ([joined] + rest)[0] == joined;
    assert flag[..|flag|] == flag;
    assert ([flag, value] + rest)[2..] == rest;
  }

  lemma {:induction false} FlagEnds(flag: string, value: string)
    requires '=' !in flag
    ensures IndexOf(flag, '=') == |flag| && IndexOf(flag + "=" + value, '=') == |flag|
  {
    if flag == "" {
      assert (flag + "=" + value)[0] == '=';
    } else {
      FlagEnds(flag[1..], value);
      assert (flag + "=" + value)[1..] == flag[1..] + "=" + value;
    }
  }

  lemma {:induction false} OtherArgument(arg: string, rest: seq<string>)
    requires !("--config=" <= arg) && !("-config=" <= arg) && arg != "--config" && arg != "-config"
    ensures ConfigFlags([arg] + rest) == ConfigFlags(rest)
  {
    var k := IndexOf(arg, '=');
    assert ([arg] + rest)[1..] == rest;
    assert arg == arg[..k] + arg[k..];
    if k < |arg| {
      assert arg[..k + 1] == arg[..k] + "=";
    }
  }

  // ----- what a source is -----

  const FILE_SCHEME := "file:"

  /** The file behind a `--config` URI, if it has one. */
  function UriPath(uri: string): Option<string> {
    if FILE_SCHEME <= uri then
      var rest := uri[|FILE_SCHEME|..];
      if rest == "" then None else Some(rest)
    else
      var k := IndexOf(uri, ':');
      if 0 < k < |uri| && uri[0] != '/' then None
      else if uri == "" then None
      else Some(uri)
  }

  predicate IsKnownPath(uris: seq<string>, path: string) {
    exists uri | uri in uris :: UriPath(uri) == Some(path)
  }

  lemma {:induction false} FileUriPath(path: string)
    requires path != ""
    ensures UriPath(FILE_SCHEME + path) == Some(path)
  {
    assert (FILE_SCHEME + path)[..|FILE_SCHEME|] == FILE_SCHEME;
    assert (FILE_SCHEME + path)[|FILE_SCHEME|..] == path;
  }

  /** Which URIs stand for which file: `file:` and a path, or a path alone that cannot be read as a scheme and more. */
  lemma {:induction false} UriPathIff(uri: string, path: string)
    ensures UriPath(uri) == Some(path) <==>
              && path != ""
              && (|| uri == "file:" + path
                  || (uri == path && !("file:" <= uri) && (uri[0] == '/' || uri[0] == ':' || ':' !in uri)))
  {
    if FILE_SCHEME <= uri {
      assert uri == FILE_SCHEME + uri[|FILE_SCHEME|..];
    }
    if uri == FILE_SCHEME + path {
      assert uri[|FILE_SCHEME|..] == path;
    }
    var k := IndexOf(uri, ':');
    assert uri != "" ==> (k == 0 <==> uri[0] == ':');
    assert k == |uri| ==> uri[..k] == uri;
  }

  // ----- what the sources hold -----

  type Content = seq<Byte>
  type Files = map<string, Content>

  function At(files: Files, path: string): Option<Content> {
    if path in files then Some(files[path]) else None
  }

  /** One resolved source: a file and what it holds, or a URI of another provider. */
  datatype Source = File(content: Option<Content>) | Foreign(uri: string)

  function Resolve(uri: string, files: Files): Source {
    match UriPath(uri)
    case Some(p) => File(At(files, p))
    case None => Foreign(uri)
  }

  /** The sources as the collector merges them, in command-line order. */
  function View(uris: seq<string>, files: Files): seq<Source> {
    if uris == [] then [] else [Resolve(uris[0], files)] + View(uris[1..], files)
  }

  /** Two file systems agree on every source file. */
  ghost predicate Same(uris: seq<string>, a: Files, b: Files) {
    forall p | IsKnownPath(uris, p) :: At(a, p) == At(b, p)
  }

  lemma {:induction false} SameView(uris: seq<string>, a: Files, b: Files)
    requires Same(uris, a, b)
    ensures View(uris, a) == View(uris, b)
  {
    if uris != [] {
      var uri := uris[0];
      if UriPath(uri).Some? {
        assert IsKnownPath(uris, UriPath(uri).value);
      }
      assert uris == [uri] + uris[1..];
      SameView(uris[1..], a, b);
    }
  }

  lemma {:induction false} ViewAt(uris: seq<string>, files: Files, i: nat)
    requires i < |uris|
    ensures |View(uris, files)| == |uris| && View(uris, files)[i] == Resolve(uris[i], files)
  {
    if |uris| > 1 {
      ViewAt(uris[1..], files, if i == 0 then 0 else i - 1);
    }
  }

  // ----- validating a candidate -----

  /** The sources with the candidate standing in for the file it is to replace. */
  function Substituted(uris: seq<string>, path: string, candidate: string): seq<string> {
    if uris == [] then []
    else
      [if UriPath(uris[0]) == Some(path) then FILE_SCHEME + candidate else uris[0]] +
      Substituted(uris[1..], path, candidate)
  }

  /** The arguments of the dry run, without the sub-command. */
  function SourceArgs(uris: seq<string>): seq<string> {
    if uris == [] then [] else ["--config", uris[0]] + SourceArgs(uris[1..])
  }

  lemma {:induction false} SourceArgsNext(uris: seq<string>, uri: string)
    ensures SourceArgs(uris + [uri]) == SourceArgs(uris) + ["--config", uri]
  {
    if uris == [] {
      assert [uri][1..] == [];
    } else {
      SourceArgsNext(uris[1..], uri);
      assert (uris + [uri])[1..] == uris[1..] + [uri];
    }
  }

  lemma {:induction false} SubstitutedNext(uris: seq<string>, uri: string, path: string, candidate: string)
    ensures Substituted(uris + [uri], path, candidate) ==
              Substituted(uris, path, candidate) +
              [if UriPath(uri) == Some(path) then FILE_SCHEME + candidate else uri]
  {
    if uris != [] {
      SubstitutedNext(uris[1..], uri, path, candidate);
      assert (uris + [uri])[1..] == uris[1..] + [uri];
    }
  }

  method ValidateArgs(uris: seq<string>, path: string, candidate: string) returns (args: seq<string>)
    ensures args == ["validate"] + SourceArgs(Substituted(uris, path, candidate))
  {
    args := ["validate"];
    for i := 0 to |uris|
      invariant args == ["validate"] + SourceArgs(Substituted(uris[..i], path, candidate))
    {
      assert uris[..i + 1] == uris[..i] + [uris[i]];
      SubstitutedNext(uris[..i], uris[i], path, candidate);
      var uri := if UriPath(uris[i]) == Some(path) then FILE_SCHEME + candidate else uris[i];
      SourceArgsNext(Substituted(uris[..i], path, candidate), uri);
      args := args + ["--config", uri];
    }
    assert uris[..|uris|] == uris;
  }

  /** Reading the dry run's arguments back gives the source list, whatever the URIs look like. */
  lemma {:induction false} SourceArgsParse(uris: seq<string>)
    ensures ConfigFlags(["validate"] + SourceArgs(uris)) == uris
  {
    var all := ["validate"] + SourceArgs(uris);
    assert all[1..] == SourceArgs(uris);
    assert "validate"[..IndexOf("validate", '=')] != "--config";
    BareSourceArgsParse(uris);
  }

  lemma {:induction false} BareSourceArgsParse(uris: seq<string>)
    ensures ConfigFlags(SourceArgs(uris)) == uris
  {
    if uris != [] {
      var args := SourceArgs(uris);
      assert args[0] == "--config" && args[1] == uris[0] && args[2..] == SourceArgs(uris[1..]);
      BareFlag();
      BareSourceArgsParse(uris[1..]);
    }
  }

  lemma {:induction false} BareFlag()
    ensures IndexOf("--config", '=') == |"--config"|
  {
    var k := IndexOf("--config", '=');
    assert '=' !in "--config";
  }

  /** The dry run sees the candidate exactly as it will land: the sources it resolves are those of the file system in
      which the candidate has replaced its target. */
  lemma {:induction false} DryRunSeesCommit(uris: seq<string>, files: Files, path: string, candidate: string)
    requires candidate != "" && candidate in files
    ensures View(Substituted(uris, path, candidate), files) == View(uris, files[path := files[candidate]])
  {
    if uris != [] {
      DryRunSeesCommit(uris[1..], files, path, candidate);
      FileUriPath(candidate);
    }
  }
}
