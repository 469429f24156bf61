/** Target labels (internal/label/target_label.go): parsing, printing and the shorthand. */
module Labels {
  import opened Results
  import opened Strings

  datatype TargetLabel = TargetLabel(package: string, name: string) {
    /** The canonical form "//pkg:target". */
    function Print(): string {
      "//" + package + ":" + name
    }

    predicate CanBeShortened() {
      var parts := Split(package, '/');
      name == parts[|parts| - 1]
    }
  }

  datatype LabelError =
    | RelativeNameEmpty
    | MissingPrefix
    | ShorthandPackageEmpty
    | NameEmpty
    | NameReserved
    | NameCharacter

  predicate NameChar(c: char) {
    || 'a' <= c <= 'z'
    || 'A' <= c <= 'Z'
    || '0' <= c <= '9'
    || c == '_' || c == '-' || c == '.'
  }

  /** What validateName accepts. */
  function ValidateName(name: string): Option<LabelError> {
    if name == "" then Some(NameEmpty)
    else if name == "..." then Some(NameReserved)
    else if forall c :: c in name ==> NameChar(c) then None
    else Some(NameCharacter)
  }

  predicate ValidName(name: string) {
    ValidateName(name) == None
  }

  function ParseTargetLabel(packagePath: string, text: string): Result<TargetLabel, LabelError> {
    if HasPrefix(text, ":") then
      var package := if packagePath == "." then "" else packagePath;
      var name := text[1..];
      if name == "" then Err(RelativeNameEmpty)
      else match ValidateName(name)
        case Some(error) => Err(error)
        case None => Ok(TargetLabel(package, name))
    else if !HasPrefix(text, "//") then Err(MissingPrefix)
    else
      var body := text[2..];
      var cut := CutAt(body, ':');
      if !cut.found && body == "" then Err(ShorthandPackageEmpty)
      else if cut.found && cut.after == "" then Err(NameEmpty)
      else
        var parts := Split(body, '/');
        var package := if cut.found then cut.before else body;
        var name := if cut.found then cut.after else parts[|parts| - 1];
        match ValidateName(name)
        case Some(error) => Err(error)
        case None => Ok(TargetLabel(package, name))
  }

  /** Which texts lack what a label needs. */
  lemma UnparsedTexts(packagePath: string, text: string)
    ensures var parsed := ParseTargetLabel(packagePath, text);
      && (parsed == Err(MissingPrefix) <==> !HasPrefix(text, ":") && !HasPrefix(text, "//"))
      && (parsed == Err(RelativeNameEmpty) <==> text == ":")
      && (parsed == Err(ShorthandPackageEmpty) <==> text == "//")
  {
    if HasPrefix(text, ":") {
      assert text[0] == ':' && text == ":" + text[1..];
    } else if HasPrefix(text, "//") {
      assert text[0] == '/' && text == "//" + text[2..];
    }
  }

  /** Labels that printing and parsing keep: a valid name and a package without a colon. */
  predicate Printable(l: TargetLabel) {
    ValidName(l.name) && ':' !in l.package
  }

  /** A label reparses to itself from its canonical form exactly when it is printable. */
  lemma LabelRoundTrip(packagePath: string, l: TargetLabel)
    ensures ParseTargetLabel(packagePath, l.Print()) == Ok(l) <==> Printable(l)
  {
    var body := l.package + ":" + l.name;
    assert l.Print()[2..] == body;
    CanonicalCut(l, body);
  }

  lemma CanonicalCut(l: TargetLabel, body: string)
    requires body == l.package + ":" + l.name
    ensures CutAt(body, ':').found
    ensures if ':' in l.package then |CutAt(body, ':').before| < |l.package|
            else CutAt(body, ':') == Cut(l.package, l.name, true)
  {
    if ':' !in l.package {
      CutAtFirst(l.package, ':', l.name);
    } else {
      IndexOfInPrefix(l.package, body, ':');
    }
  }

  /** The shorthand "//pkg" stands for a label exactly when the label can be shortened. */
  lemma ShorthandRoundTrip(packagePath: string, l: TargetLabel)
    ensures ParseTargetLabel(packagePath, "//" + l.package) == Ok(l)
       <==> Printable(l) && l.package != "" && l.CanBeShortened()
  {
    var body, text := l.package, "//" + l.package;
    assert text[2..] == body;
    assert text[0] == '/' && text[1] == '/';
    if ':' in body {
      assert CutAt(body, ':').found && CutAt(body, ':').before != body;
      assert ParseTargetLabel(packagePath, text) != Ok(l);
    } else {
      assert CutAt(body, ':') == Cut(body, "", false);
    }
  }

  /**
   Whatever parses, the parsed label reparses to itself, unless it inherited a colon from the
   package that a relative label is resolved against.
   */
  lemma ParsedLabelPrintable(packagePath: string, text: string)
    requires ParseTargetLabel(packagePath, text).Ok?
    ensures var l := ParseTargetLabel(packagePath, text).value;
      && (Printable(l) <==> !HasPrefix(text, ":") || ':' !in packagePath)
      && (ParseTargetLabel(packagePath, l.Print()) == Ok(l) <==> !HasPrefix(text, ":") || ':' !in packagePath)
  {
    LabelRoundTrip(packagePath, ParseTargetLabel(packagePath, text).value);
  }

  /** The package that relative labels are resolved against; "." is the root package. */
  function Resolved(packagePath: string): string {
    if packagePath == "." then "" else packagePath
  }

  /**
   A relative label names a target of the current package: it parses to what its canonical
   form parses to in any package, errors included, unless the current package has a colon.
   */
  lemma RelativeLabel(packagePath: string, name: string, otherPackage: string)
    ensures var parsed := ParseTargetLabel(packagePath, ":" + name);
      && (name == "" ==> parsed == Err(RelativeNameEmpty))
      && (ValidName(name) ==> parsed == Ok(TargetLabel(Resolved(packagePath), name)))
      && (name != "" && ':' !in Resolved(packagePath) ==>
            parsed == ParseTargetLabel(otherPackage, TargetLabel(Resolved(packagePath), name).Print()))
  {
    RelativeParse(packagePath, name);
    if name != "" && ':' !in Resolved(packagePath) {
      CanonicalParse(otherPackage, TargetLabel(Resolved(packagePath), name));
    }
  }

  /** The label, if its name is valid. */
  function Named(l: TargetLabel): Result<TargetLabel, LabelError> {
    match ValidateName(l.name)
    case Some(error) => Err(error)
    case None => Ok(l)
  }

  lemma RelativeParse(packagePath: string, name: string)
    ensures ParseTargetLabel(packagePath, ":" + name) ==
            if name == "" then Err(RelativeNameEmpty) else Named(TargetLabel(Resolved(packagePath), name))
  {
    assert (":" + name)[0] == ':' && (":" + name)[1..] == name;
  }

  lemma CanonicalParse(packagePath: string, l: TargetLabel)
    requires l.name != "" && ':' !in l.package
    ensures ParseTargetLabel(packagePath, l.Print()) == Named(l)
  {
    var text, body := l.Print(), l.package + ":" + l.name;
    assert text[0] == '/' && text[1] == '/' && text[2..] == body;
    CanonicalCut(l, body);
  }

  /** A package with a colon does not come back. */
  lemma ColonLost(packagePath: string)
    ensures var l := TargetLabel("a:b", "c"); ParseTargetLabel(packagePath, l.Print()) != Ok(l)
  {
    assert "a:b"[1] == ':';
    LabelRoundTrip(packagePath, TargetLabel("a:b", "c"));
  }

  /** Nor does it when a relative label has inherited it. */
  lemma InheritedColonLost()
    ensures var l := TargetLabel("a:b", "c");
      ParseTargetLabel("a:b", ":c") == Ok(l) && ParseTargetLabel("a:b", l.Print()) != Ok(l)
  {
    assert ":c"[1..] == "c";
    ColonLost("a:b");
  }

  /** The shorthand stands for the target named like its package, not for another one. */
  lemma ShorthandLost(packagePath: string)
    ensures var l := TargetLabel("a", "b"); ParseTargetLabel(packagePath, "//" + l.package) != Ok(l)
  {
    var l := TargetLabel("a", "b");
    assert Split("a", '/') == ["a"];
    ShorthandRoundTrip(packagePath, l);
  }

  /** Distinct printable labels have distinct canonical forms. */
  lemma PrintInjective(a: TargetLabel, b: TargetLabel)
    requires Printable(a) && Printable(b) && a.Print() == b.Print()
    ensures a == b
  {
    LabelRoundTrip("", a);
    LabelRoundTrip("", b);
  }
}
