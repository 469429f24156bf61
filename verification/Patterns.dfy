/** Target patterns (internal/label/target_pattern.go): parsing, printing and matching. */
module Patterns {
  import opened Results
  import opened Strings
  import opened Labels

  datatype TargetPattern = TargetPattern(prefix: string, target: string, recursive: bool) {
    function Print(): string {
      "//" + prefix
      + (if !recursive then "" else if prefix != "" then "/..." else "...")
      + (if target != "" then ":" + target else "")
    }

    predicate Matches(l: TargetLabel) {
      && (if recursive
          then prefix == "" || l.package == prefix || HasPrefix(l.package, prefix + "/")
          else l.package == prefix)
      && (target in ["", "all", "..."] || l.name == target)
    }
  }

  datatype PatternError =
    | RelativeWithoutColon
    | BadName(error: LabelError)
    | TargetEmpty
    | AfterEllipsis

  predicate EndsInSlash(s: string) {
    |s| > 0 && s[|s| - 1] == '/'
  }

  function TrimSlash(s: string): string {
    if EndsInSlash(s) then s[..|s| - 1] else s
  }

  function AfterLastSlash(s: string): string {
    var parts := Split(s, '/');
    parts[|parts| - 1]
  }

  function ParseTargetPattern(currentPackage: string, pattern: string): Result<TargetPattern, PatternError> {
    if !HasPrefix(pattern, "//") then
      var cut := CutAt(pattern, ':');
      if !cut.found then Err(RelativeWithoutColon)
      else if cut.after == "..." || ValidName(cut.after) then Ok(TargetPattern(currentPackage, cut.after, false))
      else Err(BadName(ValidateName(cut.after).value))
    else
      ParseAbsolute(pattern[2..])
  }

  function ParseAbsolute(body: string): Result<TargetPattern, PatternError> {
    var cut := CutAt(body, ':');
    if cut.found && cut.after == "" then Err(TargetEmpty)
    else
      var packagePart := cut.before;
      var i := EllipsisIndex(packagePart);
      if i < |packagePart| then
        if |packagePart| > i + 3 then Err(AfterEllipsis)
        else Ok(TargetPattern(TrimSlash(packagePart[..i]), cut.after, true))
      else
        var target := if cut.found then cut.after else AfterLastSlash(packagePart);
        if target == "" then Err(TargetEmpty)
        else Ok(TargetPattern(TrimSlash(packagePart), target, false))
  }

  /** Patterns that printing and parsing keep. */
  predicate Printable(p: TargetPattern) {
    && ':' !in p.prefix
    && !HasEllipsis(p.prefix)
    && (p.recursive || (p.target != "" && !EndsInSlash(p.prefix)))
  }

  function PackagePart(p: TargetPattern): string {
    p.prefix + (if !p.recursive then "" else if p.prefix != "" then "/..." else "...")
  }

  /** A pattern reparses to itself from its printed form exactly when it is printable. */
  lemma PatternRoundTrip(currentPackage: string, p: TargetPattern)
    ensures ParseTargetPattern(currentPackage, p.Print()) == Ok(p) <==> Printable(p)
  {
    var body := PackagePart(p) + (if p.target != "" then ":" + p.target else "");
    assert p.Print()[2..] == body;
    assert ParseTargetPattern(currentPackage, p.Print()) == ParseAbsolute(body);
    if ':' in p.prefix {
      ColonInPrefix(p, body);
    } else {
      BodyCut(p, body);
      if p.recursive {
        RecursiveRoundTrip(p, body);
      } else {
        ExactRoundTrip(p, body);
      }
    }
  }

  lemma BodyCut(p: TargetPattern, body: string)
    requires ':' !in p.prefix
    requires body == PackagePart(p) + (if p.target != "" then ":" + p.target else "")
    ensures CutAt(body, ':') == Cut(PackagePart(p), p.target, p.target != "")
  {
    assert ':' !in PackagePart(p);
    if p.target != "" {
      assert body == PackagePart(p) + [':'] + p.target;
      CutAtFirst(PackagePart(p), ':', p.target);
    } else {
      assert body == PackagePart(p);
    }
  }

  lemma ExactRoundTrip(p: TargetPattern, body: string)
    requires !p.recursive
    requires CutAt(body, ':') == Cut(p.prefix, p.target, p.target != "")
    ensures ParseAbsolute(body) == Ok(p) <==> !HasEllipsis(p.prefix) && p.target != "" && !EndsInSlash(p.prefix)
  {
  }

  lemma ColonInPrefix(p: TargetPattern, body: string)
    requires ':' in p.prefix && p.prefix <= body
    ensures ParseAbsolute(body) != Ok(p)
  {
    IndexOfInPrefix(p.prefix, body, ':');
    assert |CutAt(body, ':').before| < |p.prefix|;
  }

  lemma RecursiveRoundTrip(p: TargetPattern, body: string)
    requires p.recursive
    requires CutAt(body, ':') == Cut(PackagePart(p), p.target, p.target != "")
    ensures ParseAbsolute(body) == Ok(p) <==> !HasEllipsis(p.prefix)
  {
    var part := PackagePart(p);
    assert |part| >= 3;
    assert part == if p.prefix == "" then "..." else p.prefix + "/...";
    if HasEllipsis(p.prefix) {
      EllipsisInPrefix(p.prefix, part);
      EllipsisTooEarly(body, part, p.target, EllipsisIndex(part));
    } else {
      EllipsisAtEnd(p.prefix, part);
      TrimBeforeEllipsis(p.prefix, part);
      EllipsisLast(body, part, p.target);
    }
  }

  lemma EllipsisLast(body: string, part: string, target: string)
    requires CutAt(body, ':') == Cut(part, target, target != "")
    requires |part| >= 3 && EllipsisIndex(part) == |part| - 3
    ensures ParseAbsolute(body) == Ok(TargetPattern(TrimSlash(part[..|part| - 3]), target, true))
  {
  }

  lemma EllipsisTooEarly(body: string, part: string, target: string, i: nat)
    requires CutAt(body, ':') == Cut(part, target, target != "")
    requires EllipsisIndex(part) == i && i + 3 < |part|
    ensures ParseAbsolute(body) == Err(AfterEllipsis)
  {
  }

  lemma TrimBeforeEllipsis(prefix: string, part: string)
    requires part == if prefix == "" then "..." else prefix + "/..."
    ensures TrimSlash(part[..|part| - 3]) == prefix
  {
  }

  lemma EllipsisAtEnd(prefix: string, part: string)
    requires !HasEllipsis(prefix)
    requires part == if prefix == "" then "..." else prefix + "/..."
    ensures EllipsisIndex(part) == |part| - 3
  {
    var at := |part| - 3;
    forall j | 0 <= j < at ensures !HasPrefix(part[j..], "...") {
      assert prefix != "" && part[|prefix|] == '/';
      EllipsisAt(part, j);
      if j + 2 < |prefix| {
        EllipsisAt(prefix, j);
      }
    }
    assert part[at..] == "...";
    EllipsisUnique(part, at);
  }

  /**
   Pattern texts whose pattern survives printing: an absolute text is recursive or has at
   most one slash at the end of its package part; a relative text is as good as the package
   it is resolved against.
   */
  predicate KeptByPrinting(currentPackage: string, pattern: string) {
    if HasPrefix(pattern, "//") then
      var part := CutAt(pattern[2..], ':').before;
      HasEllipsis(part) || !(|part| >= 2 && part[|part| - 2..] == "//")
    else
      ':' !in currentPackage && !HasEllipsis(currentPackage) && !EndsInSlash(currentPackage)
  }

  /** Whatever parses, the parsed pattern reparses to itself exactly when its text is of this kind. */
  lemma ParsedPatternPrintable(currentPackage: string, pattern: string)
    requires ParseTargetPattern(currentPackage, pattern).Ok?
    ensures var p := ParseTargetPattern(currentPackage, pattern).value;
      && (Printable(p) <==> KeptByPrinting(currentPackage, pattern))
      && (ParseTargetPattern(currentPackage, p.Print()) == Ok(p) <==> KeptByPrinting(currentPackage, pattern))
  {
    var p := ParseTargetPattern(currentPackage, pattern).value;
    PatternRoundTrip(currentPackage, p);
    if HasPrefix(pattern, "//") {
      AbsolutePrintable(pattern[2..]);
    }
  }

  lemma AbsolutePrintable(body: string)
    requires ParseAbsolute(body).Ok?
    ensures var part := CutAt(body, ':').before;
      Printable(ParseAbsolute(body).value) <==> HasEllipsis(part) || !(|part| >= 2 && part[|part| - 2..] == "//")
  {
    var p := ParseAbsolute(body).value;
    var part := CutAt(body, ':').before;
    assert ':' !in part && p.prefix <= part;
    if HasEllipsis(p.prefix) {
      EllipsisInPrefix(p.prefix, part);
    }
    TrimmedTwice(part);
  }

  /** One slash at most is trimmed. */
  lemma TrimmedTwice(part: string)
    ensures EndsInSlash(TrimSlash(part)) <==> |part| >= 2 && part[|part| - 2..] == "//"
  {
    if |part| >= 2 {
      assert part[|part| - 2..] == [part[|part| - 2], part[|part| - 1]];
    }
  }

  /**
   A relative pattern selects in the current package only: the target after its colon, or all
   targets. It parses to what its printed form parses to in any package exactly when the
   current package is one that printing keeps.
   */
  lemma RelativePattern(currentPackage: string, before: string, target: string, otherPackage: string)
    requires ':' !in before && !HasPrefix(before + ":" + target, "//")
    ensures var parsed := ParseTargetPattern(currentPackage, before + ":" + target);
      if target == "..." || ValidName(target) then
        && parsed.Ok?
        && (forall l :: parsed.value.Matches(l) <==>
              l.package == currentPackage && (target == "..." || target == "all" || l.name == target))
        && (ParseTargetPattern(otherPackage, "//" + currentPackage + ":" + target) == parsed <==>
            ':' !in currentPackage && !HasEllipsis(currentPackage) && !EndsInSlash(currentPackage))
      else parsed == Err(BadName(ValidateName(target).value))
  {
    var p := TargetPattern(currentPackage, target, false);
    CutAtFirst(before, ':', target);
    assert before + ":" + target == before + [':'] + target;
    if target == "..." || ValidName(target) {
      assert p.Print() == "//" + currentPackage + ":" + target;
      PatternRoundTrip(otherPackage, p);
    }
  }

  /** Without a colon a text that does not start at the root is no pattern. */
  lemma RelativeNeedsColon(currentPackage: string, text: string)
    requires !HasPrefix(text, "//")
    ensures ParseTargetPattern(currentPackage, text) == Err(RelativeWithoutColon) <==> ':' !in text
  {
  }

  lemma ParseExact(currentPackage: string, part: string, target: string)
    requires ':' !in part && '.' !in part && target != ""
    ensures ParseTargetPattern(currentPackage, "//" + (part + [':'] + target)) ==
            Ok(TargetPattern(TrimSlash(part), target, false))
  {
    var body := part + [':'] + target;
    CutAtFirst(part, ':', target);
    NoDots(part);
    assert ("//" + body)[2..] == body;
  }

  /** Printing does not keep this pattern: its empty target comes back as the last segment. */
  lemma BareTargetLost(currentPackage: string)
    ensures var p := TargetPattern("a", "", false);
      ParseTargetPattern(currentPackage, p.Print()) != Ok(p)
  {
    PatternRoundTrip(currentPackage, TargetPattern("a", "", false));
  }

  /** Nor the pattern of this text, whose package part keeps one of its two slashes. */
  lemma DoubleSlashLost(currentPackage: string, text: string)
    requires text == "//a//:b"
    ensures ParseTargetPattern(currentPackage, text) == Ok(TargetPattern("a/", "b", false))
    ensures ParseTargetPattern(currentPackage, TargetPattern("a/", "b", false).Print()) !=
            Ok(TargetPattern("a/", "b", false))
  {
    var part := text[2..5];
    assert part == ['a', '/', '/'] && part[..2] == ['a', '/'];
    assert text == "//" + (part + [':'] + text[6..]) && text[6..] == ['b'];
    ParseExact(currentPackage, part, text[6..]);
    var p := TargetPattern(part[..2], text[6..], false);
    PatternRoundTrip(currentPackage, p);
    assert p == TargetPattern("a/", "b", false);
  }

  /**
   A recursive pattern matches exactly the packages whose path segments extend its prefix,
   and of their targets all, or those with the name it asks for.
   */
  lemma RecursiveMatchesSubtree(p: TargetPattern, l: TargetLabel)
    requires p.recursive
    ensures p.Matches(l) <==>
      && (p.prefix == "" || Split(p.prefix, '/') <= Split(l.package, '/'))
      && (p.target in ["", "all", "..."] || l.name == p.target)
  {
    PrefixAtSeparator(l.package, p.prefix, '/');
  }

  ghost predicate MatchesOnly(p: TargetPattern, l: TargetLabel) {
    forall other :: p.Matches(other) <==> other == l
  }

  ghost predicate SelectsOnly(currentPackage: string, text: string, l: TargetLabel) {
    var parsed := ParseTargetPattern(currentPackage, text);
    parsed.Ok? && MatchesOnly(parsed.value, l)
  }

  /** Labels that mean the same as patterns. */
  predicate PatternLike(l: TargetLabel) {
    l.name != "all" && !HasEllipsis(l.package) && !EndsInSlash(l.package)
  }

  /** What becomes of a printable label that is read as a pattern. */
  function AsPattern(l: TargetLabel): Result<TargetPattern, PatternError> {
    var i := EllipsisIndex(l.package);
    if i == |l.package| then Ok(TargetPattern(TrimSlash(l.package), l.name, false))
    else if |l.package| > i + 3 then Err(AfterEllipsis)
    else Ok(TargetPattern(TrimSlash(l.package[..i]), l.name, true))
  }

  lemma LabelParsesAs(currentPackage: string, l: TargetLabel)
    requires Labels.Printable(l)
    ensures ParseTargetPattern(currentPackage, l.Print()) == AsPattern(l)
  {
    var body := l.package + [':'] + l.name;
    CutAtFirst(l.package, ':', l.name);
    assert l.Print()[2..] == body;
  }

  /** A printable label, read as a pattern, selects that label and nothing else exactly when it is like a pattern. */
  lemma LabelAsPattern(currentPackage: string, l: TargetLabel)
    requires Labels.Printable(l)
    ensures SelectsOnly(currentPackage, l.Print(), l) <==> PatternLike(l)
  {
    LabelParsesAs(currentPackage, l);
    if PatternLike(l) {
      PatternLikeMatches(l);
    } else if AsPattern(l).Ok? {
      UnlikeMatches(l, AsPattern(l).value);
    }
  }

  /** The label of a target named "all" is one that selects more, as a pattern. */
  lemma AllSelectsMore(currentPackage: string)
    ensures !SelectsOnly(currentPackage, TargetLabel("a", "all").Print(), TargetLabel("a", "all"))
  {
    LabelAsPattern(currentPackage, TargetLabel("a", "all"));
  }

  lemma PatternLikeMatches(l: TargetLabel)
    requires Labels.Printable(l) && PatternLike(l)
    ensures AsPattern(l) == Ok(TargetPattern(l.package, l.name, false))
    ensures MatchesOnly(TargetPattern(l.package, l.name, false), l)
  {
  }

  /** The other labels miss themselves, or select others as well. */
  lemma UnlikeMatches(l: TargetLabel, p: TargetPattern)
    requires Labels.Printable(l) && !PatternLike(l) && AsPattern(l) == Ok(p)
    ensures !MatchesOnly(p, l)
  {
    var other := if p.prefix != l.package then TargetLabel(p.prefix, l.name) else TargetLabel(p.prefix, l.name + "s");
    assert p.Matches(other);
    assert other != l;
  }
}
