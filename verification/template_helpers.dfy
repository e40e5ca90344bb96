/**
 * `instance_template` and `copy_template` of util/template_helpers.py: both
 * consult the write policy first; the first renders a template with
 * `string.Template.substitute` and writes the result, the second copies the
 * template verbatim.
 *
 * A call returns the line the write policy printed and either the new
 * filesystem or the exception the Python code raises. An exception leaves the
 * caller's filesystem as it was: the destination is opened only after the
 * template has been read and rendered, so a failed call never creates or
 * truncates it.
 */
module TemplateHelpers {
  import opened Results
  import opened Text
  import opened Validators
  import opened StringTemplate

  datatype HelperError =
    | TemplateNotFound(path: Path)      // reading the template raises FileNotFoundError
    | BadTemplate(cause: TemplateError) // `substitute` raises ValueError or KeyError
    | SameFile(path: Path)              // `shutil.copyfile` raises SameFileError

  /** The names `instance_template` binds to its own parameters. */
  const ParameterNames: set<string> := {"service_name", "temp_path", "dest_path", "overwrite"}

  /**
   * A symbol table Python can build from `**kwargs`: a keyword argument named
   * after a parameter binds to that parameter and never reaches the table.
   */
  predicate KeywordSymbols(kwargs: Symbols) {
    kwargs.Keys !! ParameterNames
  }

  /** What one call did: the policy's notice, and the filesystem after it or the error. */
  datatype Run = Run(notice: string, outcome: Result<FileSystem, HelperError>)

  /**
   * `instance_template(service_name, temp_path, dest_path, overwrite, **kwargs)`.
   * When the policy skips, nothing is read and nothing changes. Otherwise the
   * destination ends up holding the rendered template and no other file
   * changes; a missing template or a failed substitution is an error. The
   * service name plays no part (the line that printed it is commented out).
   * The symbols are what Python collects in `**kwargs`, so they never hold a
   * parameter's name.
   */
  function InstanceTemplate(fs: FileSystem, serviceName: string, tempPath: Path, destPath: Path,
                            overwrite: bool, kwargs: Symbols): (r: Run)
    requires KeywordSymbols(kwargs)
    ensures r.notice == IsWritable(fs, destPath, overwrite).notice
    ensures destPath in fs && !overwrite ==> r.outcome == Ok(fs)
    ensures r.outcome.Ok? ==> destPath in r.outcome.value && r.outcome.value - {destPath} == fs - {destPath}
    ensures r.outcome.Ok? && (destPath !in fs || overwrite) ==>
              tempPath in fs && Substitute(fs[tempPath], kwargs) == Ok(r.outcome.value[destPath])
    ensures (destPath !in fs || overwrite) && tempPath in fs && Substitute(fs[tempPath], kwargs).Ok? ==>
              r.outcome.Ok?
    ensures (destPath !in fs || overwrite) && tempPath !in fs ==> r.outcome == Err(TemplateNotFound(tempPath))
    ensures r.outcome.Err? ==>
              match r.outcome.error
              case TemplateNotFound(p) => p == tempPath && tempPath !in fs
              case BadTemplate(e) => tempPath in fs && Substitute(fs[tempPath], kwargs) == Err(e)
              case SameFile(_) => false
  {
    var check := IsWritable(fs, destPath, overwrite);
    if !check.Writable() then Run(check.notice, Ok(fs))
    else if tempPath !in fs then Run(check.notice, Err(TemplateNotFound(tempPath)))
    else
      match Substitute(fs[tempPath], kwargs)
      case Err(e) => Run(check.notice, Err(BadTemplate(e)))
      case Ok(output) => Run(check.notice, Ok(fs[destPath := output]))
  }

  /**
   * `copy_template(service_name, temp_path, dest_path, overwrite)`. When the
   * policy skips, nothing is read and nothing changes. Otherwise the
   * destination becomes a copy of the template and no other file changes; a
   * missing template, or a template that is the destination itself, is an
   * error.
   */
  function CopyTemplate(fs: FileSystem, serviceName: string, tempPath: Path, destPath: Path,
                        overwrite: bool): (r: Run)
    ensures r.notice == IsWritable(fs, destPath, overwrite).notice
    ensures destPath in fs && !overwrite ==> r.outcome == Ok(fs)
    ensures r.outcome.Ok? ==> destPath in r.outcome.value && r.outcome.value - {destPath} == fs - {destPath}
    ensures r.outcome.Ok? && (destPath !in fs || overwrite) ==>
              tempPath in fs && r.outcome.value[destPath] == fs[tempPath]
    ensures (destPath !in fs || overwrite) && tempPath in fs && tempPath != destPath ==> r.outcome.Ok?
    ensures (destPath !in fs || overwrite) && tempPath !in fs ==> r.outcome == Err(TemplateNotFound(tempPath))
    ensures destPath in fs && overwrite && tempPath == destPath ==> r.outcome == Err(SameFile(destPath))
    ensures r.outcome.Err? ==>
              match r.outcome.error
              case TemplateNotFound(p) => p == tempPath && tempPath !in fs
              case BadTemplate(_) => false
              case SameFile(p) => p == destPath && tempPath == destPath && tempPath in fs
  {
    var check := IsWritable(fs, destPath, overwrite);
    if !check.Writable() then Run(check.notice, Ok(fs))
    else if tempPath !in fs then Run(check.notice, Err(TemplateNotFound(tempPath)))
    else if tempPath == destPath then Run(check.notice, Err(SameFile(destPath)))
    else Run(check.notice, Ok(fs[destPath := fs[tempPath]]))
  }

  /**
   * Running `instance_template` again after it wrote changes nothing: with
   * `overwrite` off the second call skips, with it on it writes the same
   * text again (provided the template is not its own destination).
   */
  lemma InstanceTemplateIdempotent(fs: FileSystem, serviceName: string, tempPath: Path, destPath: Path,
                                   overwrite: bool, again: bool, kwargs: Symbols)
    requires KeywordSymbols(kwargs)
    requires InstanceTemplate(fs, serviceName, tempPath, destPath, overwrite, kwargs).outcome.Ok?
    requires again ==> (destPath !in fs || overwrite) && tempPath != destPath
    ensures var fs' := InstanceTemplate(fs, serviceName, tempPath, destPath, overwrite, kwargs).outcome.value;
            InstanceTemplate(fs', serviceName, tempPath, destPath, again, kwargs).outcome == Ok(fs')
  {
    var fs' := InstanceTemplate(fs, serviceName, tempPath, destPath, overwrite, kwargs).outcome.value;
    if again {
      assert fs'[tempPath] == fs[tempPath];
      assert fs'[destPath := fs'[destPath]] == fs';
    }
  }

  /**
   * Whenever the write goes ahead, what `instance_template` does depends only
   * on the template and the symbols: not on what the destination held
   * before, whether it existed, the `overwrite` flag that let the write
   * through, or the service name.
   */
  lemma InstanceTemplateIgnoresPriorDestination(fs1: FileSystem, fs2: FileSystem,
                                                name1: string, name2: string,
                                                tempPath: Path, destPath: Path,
                                                overwrite1: bool, overwrite2: bool, kwargs: Symbols)
    requires KeywordSymbols(kwargs)
    requires fs1 - {destPath} == fs2 - {destPath}
    requires tempPath != destPath
    requires destPath !in fs1 || overwrite1
    requires destPath !in fs2 || overwrite2
    ensures InstanceTemplate(fs2, name2, tempPath, destPath, overwrite2, kwargs).outcome ==
            InstanceTemplate(fs1, name1, tempPath, destPath, overwrite1, kwargs).outcome
  {
    assert tempPath in fs1 <==> tempPath in fs2 by {
      assert tempPath in fs1 <==> tempPath in fs1 - {destPath};
      assert tempPath in fs2 <==> tempPath in fs2 - {destPath};
    }
    if tempPath in fs1 {
      assert fs1[tempPath] == (fs1 - {destPath})[tempPath] == fs2[tempPath];
      var r1 := InstanceTemplate(fs1, name1, tempPath, destPath, overwrite1, kwargs).outcome;
      if r1.Ok? {
        UpdateAgrees(fs1, fs2, destPath, r1.value[destPath]);
      }
    }
  }

  /** Two filesystems that differ at most at `p` agree once `p` is written. */
  lemma UpdateAgrees(fs1: FileSystem, fs2: FileSystem, p: Path, content: string)
    requires fs1 - {p} == fs2 - {p}
    ensures fs1[p := content] == fs2[p := content]
  {
    forall q | q != p
      ensures q in fs1 <==> q in fs2
      ensures q in fs1 ==> fs1[q] == fs2[q]
    {
      assert q in fs1 <==> q in fs1 - {p};
      assert q in fs2 <==> q in fs2 - {p};
      if q in fs1 {
        assert fs1[q] == (fs1 - {p})[q];
        assert fs2[q] == (fs2 - {p})[q];
      }
    }
  }

  /**
   * Rendering one template to two fresh destinations, one after the other,
   * gives the two files the same content.
   */
  lemma InstanceTemplateSameContent(fs: FileSystem, tempPath: Path, dest1: Path, dest2: Path,
                                    overwrite: bool, kwargs: Symbols)
    requires KeywordSymbols(kwargs)
    requires dest1 !in fs && dest2 !in fs && dest1 != dest2
    requires InstanceTemplate(fs, "", tempPath, dest1, overwrite, kwargs).outcome.Ok?
    ensures var fs1 := InstanceTemplate(fs, "", tempPath, dest1, overwrite, kwargs).outcome.value;
            var r2 := InstanceTemplate(fs1, "", tempPath, dest2, overwrite, kwargs).outcome;
            r2.Ok? && r2.value[dest2] == r2.value[dest1] == fs1[dest1]
  {
    var fs1 := InstanceTemplate(fs, "", tempPath, dest1, overwrite, kwargs).outcome.value;
    assert fs1[tempPath] == fs[tempPath];
  }

  /**
   * A placeholder named after a parameter of `instance_template`, such as
   * `${overwrite}`, always fails as a missing key: the keyword argument of
   * that name was bound to the parameter and is not among the symbols.
   */
  lemma ParameterNameIsNeverASymbol(fs: FileSystem, serviceName: string, tempPath: Path, destPath: Path,
                                    overwrite: bool, kwargs: Symbols, name: string)
    requires KeywordSymbols(kwargs) && name in ParameterNames
    requires tempPath in fs && fs[tempPath] == "${" + name + "}"
    requires destPath !in fs || overwrite
    ensures InstanceTemplate(fs, serviceName, tempPath, destPath, overwrite, kwargs).outcome
              == Err(BadTemplate(MissingKey(name)))
  {
    assert IsIdentifier(name) by {
      assert name == "service_name" || name == "temp_path" || name == "dest_path" || name == "overwrite";
    }
    assert name !in kwargs;
    var t := fs[tempPath];
    assert OccursAt(t, "${" + name + "}", 0);
    BracedPlaceholder(t, kwargs, 0, name);
  }

  /**
   * Running `copy_template` again after it copied changes nothing, with
   * `overwrite` on or off.
   */
  lemma CopyTemplateIdempotent(fs: FileSystem, serviceName: string, tempPath: Path, destPath: Path,
                               overwrite: bool, again: bool)
    requires CopyTemplate(fs, serviceName, tempPath, destPath, overwrite).outcome.Ok?
    requires again ==> destPath !in fs || overwrite
    ensures var fs' := CopyTemplate(fs, serviceName, tempPath, destPath, overwrite).outcome.value;
            CopyTemplate(fs', serviceName, tempPath, destPath, again).outcome == Ok(fs')
  {
    var fs' := CopyTemplate(fs, serviceName, tempPath, destPath, overwrite).outcome.value;
    if again {
      assert fs'[tempPath] == fs[tempPath];
      assert fs'[destPath := fs'[tempPath]] == fs';
    }
  }

  /** The file names of the worked scenario below. */
  const SiteTemplate: Path := "/srv/templates/site.conf"
  const SiteConf: Path := "/srv/proj/conf/site.conf"

  /** The template text and the symbol table of the worked scenario below. */
  const SiteText: string := "listen ${port};"
  const SiteSymbols: Symbols := map["port" := "8080"]
  const SitePieces: seq<Piece> := [Literal("listen "), Slot("port"), Literal(";")]

  lemma SitePiecesUnparse()
    ensures Unparse(SitePieces) == SiteText
  {
    var p3: seq<Piece> := [];
    var p2 := [Literal(";")] + p3;
    var p1 := [Slot("port")] + p2;
    assert SitePieces == [Literal("listen ")] + p1;
    UnparseCons(Literal(";"), p3);
    assert Unparse(p2) == ";";
    UnparseCons(Slot("port"), p2);
    assert Unparse(p1) == "${port};";
    UnparseCons(Literal("listen "), p1);
  }

  lemma SitePiecesExpand()
    ensures Expand(SitePieces, SiteSymbols) == Ok("listen 8080;")
  {
    var symbols := SiteSymbols;
    var p3: seq<Piece> := [];
    var p2 := [Literal(";")] + p3;
    var p1 := [Slot("port")] + p2;
    assert SitePieces == [Literal("listen ")] + p1;
    assert Expand(p3, symbols) == Ok("");
    ExpandCons(Literal(";"), p3, symbols);
    assert ";" + "" == ";";
    assert Expand(p2, symbols) == Ok(";");
    ExpandCons(Slot("port"), p2, symbols);
    assert "port" in symbols && symbols["port"] == "8080";
    assert "8080" + ";" == "8080;";
    assert Expand(p1, symbols) == Ok("8080;");
    ExpandCons(Literal("listen "), p1, symbols);
    assert "listen " + "8080;" == "listen 8080;";
  }

  /** `listen ${port};` rendered with port = 8080. */
  lemma SiteTemplateRenders()
    ensures Substitute(SiteText, SiteSymbols) == Ok("listen 8080;")
  {
    SitePiecesUnparse();
    SitePiecesExpand();
    SubstituteMatchesExpand(SitePieces, SiteSymbols);
  }

  /**
   * The worked scenario: a fresh destination receives exactly the rendered
   * text; a second run without `overwrite` keeps different prior content
   * and reports the skip; a template naming a missing key fails and leaves
   * the destination absent.
   */
  lemma SiteScenario(fs: FileSystem, prior: string)
    requires SiteTemplate in fs && SiteConf !in fs
    requires fs[SiteTemplate] == SiteText
    ensures InstanceTemplate(fs, "nginx", SiteTemplate, SiteConf, false, SiteSymbols).outcome
              == Ok(fs[SiteConf := "listen 8080;"])
    ensures var existing := fs[SiteConf := prior];
            InstanceTemplate(existing, "nginx", SiteTemplate, SiteConf, false, SiteSymbols)
              == Run("path [" + SiteConf + "] exists, skipping", Ok(existing))
    ensures var broken := fs[SiteTemplate := "${host}"];
            InstanceTemplate(broken, "nginx", SiteTemplate, SiteConf, false, SiteSymbols).outcome
              == Err(BadTemplate(MissingKey("host")))
  {
    SiteTemplateRenders();
    assert Substitute("${host}", SiteSymbols) == Err(MissingKey("host")) by {
      assert OccursAt("${host}", "${" + "host" + "}", 0);
      BracedPlaceholder("${host}", SiteSymbols, 0, "host");
    }
  }

}
