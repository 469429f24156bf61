/**
 The identity of a resource (internal/hashing/hash_resource.go): the byte stream fed to
 the hasher frames every value with its decimal length, so it can be decoded again and
 two resources with one stream have the same behaviour-affecting definition.
 */
module ResourceIdentity {
  import opened Results
  import opened Strings
  import opened Sorting
  import opened Labels

  /**
   What the identity covers. The timeout is the effective one, printed by Go's
   time.Duration.
   */
  datatype Resource = Resource(
    targetLabel: TargetLabel,
    up: string,
    down: string,
    ready: string,
    timeout: string,
    dependencies: seq<TargetLabel>,
    exports: map<string, string>)

  /** A hasher is the bytes written to it so far; SumString is a function of them. */
  class Hasher {
    var written: string

    constructor ()
      ensures written == ""
    {
      written := "";
    }

    method WriteString(value: string)
      modifies this
      ensures written == old(written) + value
    {
      written := written + value;
    }
  }

  function Frame(value: string): string {
    Itoa(|value|) + ":" + value
  }

  function Frames(values: seq<string>): string {
    if values == [] then "" else Frame(values[0]) + Frames(values[1..])
  }

  function LabelTexts(labels: seq<TargetLabel>): seq<string> {
    seq(|labels|, i requires 0 <= i < |labels| => labels[i].Print())
  }

  /** Key and value of every export, in the order of the given keys. */
  function ExportTexts(keys: seq<string>, exports: map<string, string>): seq<string>
    requires forall k :: k in keys ==> k in exports
  {
    if keys == [] then [] else [keys[0], exports[keys[0]]] + ExportTexts(keys[1..], exports)
  }

  ghost function HeadTexts(r: Resource): seq<string> {
    [r.targetLabel.Print(), r.up, r.down, r.ready, r.timeout, Itoa(|r.dependencies|)]
  }

  /** The values written for a resource, each of which is framed. */
  ghost function Values(r: Resource): seq<string> {
    HeadTexts(r)
    + LabelTexts(r.dependencies)
    + [Itoa(|r.exports|)]
    + ExportTexts(SortedOf(r.exports.Keys), r.exports)
  }

  method WriteResourceIdentityValue(hasher: Hasher, value: string)
    modifies hasher
    ensures hasher.written == old(hasher.written) + Frame(value)
  {
    hasher.WriteString(Itoa(|value|));
    hasher.WriteString(":");
    hasher.WriteString(value);
  }

  lemma FramesAppend(values: seq<string>, value: string)
    ensures Frames(values + [value]) == Frames(values) + Frame(value)
  {
    FramesConcat(values, [value]);
    assert [value][1..] == [] && Frames([]) == "";
    assert Frame(value) + "" == Frame(value);
  }

  lemma {:induction false} ExportTextsAppend(keys: seq<string>, key: string, exports: map<string, string>)
    requires forall k :: k in keys ==> k in exports
    requires key in exports
    ensures ExportTexts(keys + [key], exports) == ExportTexts(keys, exports) + [key, exports[key]]
  {
    if keys == [] {
      assert keys + [key] == [key];
    } else {
      ExportTextsAppend(keys[1..], key, exports);
      assert (keys + [key])[1..] == keys[1..] + [key];
    }
  }

  lemma {:induction false} FramesConcat(a: seq<string>, b: seq<string>)
    ensures Frames(a + b) == Frames(a) + Frames(b)
  {
    if a == [] {
      assert a + b == b;
      assert "" + Frames(b) == Frames(b);
    } else {
      FramesConcat(a[1..], b);
      assert (a + b)[1..] == a[1..] + b;
      ConcatAssociative(Frame(a[0]), Frames(a[1..]), Frames(b));
    }
  }

  lemma FramesOfValues(r: Resource)
    ensures Frames(Values(r)) == Frames(HeadTexts(r)) + Frames(LabelTexts(r.dependencies))
      + Frame(Itoa(|r.exports|)) + Frames(ExportTexts(SortedOf(r.exports.Keys), r.exports))
  {
    var a, b, c, d := HeadTexts(r), LabelTexts(r.dependencies), [Itoa(|r.exports|)],
      ExportTexts(SortedOf(r.exports.Keys), r.exports);
    FramesConcat(a + b + c, d);
    FramesAppend(a + b, c[0]);
    FramesConcat(a, b);
  }

  /** Feeds the resource to a fresh hasher; the caller sums and truncates it. */
  method HashResource(r: Resource) returns (hasher: Hasher)
    ensures fresh(hasher)
    ensures hasher.written == Frames(Values(r))
  {
    hasher := new Hasher();
    ghost var head, labels := Frames(HeadTexts(r)), Frames(LabelTexts(r.dependencies));
    WriteHead(hasher, r.targetLabel.Print(), r.up, r.down, r.ready, r.timeout, Itoa(|r.dependencies|));
    assert hasher.written == head;
    WriteDependencies(hasher, r.dependencies);
    var keys := SortedKeys(r.exports.Keys);
    assert |keys| == |r.exports| by { SortedCount(r.exports.Keys); }
    WriteResourceIdentityValue(hasher, Itoa(|keys|));
    assert hasher.written == head + labels + Frame(Itoa(|r.exports|));
    WriteExports(hasher, keys, r.exports);
    FramesOfValues(r);
  }

  /** One more value in a stream of frames. */
  method WriteNext(hasher: Hasher, value: string, ghost start: string, ghost values: seq<string>)
    requires hasher.written == start + Frames(values)
    modifies hasher
    ensures hasher.written == start + Frames(values + [value])
  {
    WriteResourceIdentityValue(hasher, value);
    FramesAppend(values, value);
    ConcatAssociative(start, Frames(values), Frame(value));
  }

  method WriteHead(hasher: Hasher, a: string, b: string, c: string, d: string, e: string, f: string)
    modifies hasher
    ensures hasher.written == old(hasher.written) + Frames([a, b, c, d, e, f])
  {
    ghost var start := hasher.written;
    WriteNext(hasher, a, start, []);
    WriteNext(hasher, b, start, [] + [a]);
    WriteNext(hasher, c, start, [] + [a] + [b]);
    WriteNext(hasher, d, start, [] + [a] + [b] + [c]);
    WriteNext(hasher, e, start, [] + [a] + [b] + [c] + [d]);
    WriteNext(hasher, f, start, [] + [a] + [b] + [c] + [d] + [e]);
    assert [a, b, c, d, e, f] == [] + [a] + [b] + [c] + [d] + [e] + [f];
  }

  method WriteDependencies(hasher: Hasher, dependencies: seq<TargetLabel>)
    modifies hasher
    ensures hasher.written == old(hasher.written) + Frames(LabelTexts(dependencies))
  {
    ghost var start, texts := hasher.written, LabelTexts(dependencies);
    for i := 0 to |dependencies|
      invariant hasher.written == start + Frames(texts[..i])
    {
      WriteNext(hasher, dependencies[i].Print(), start, texts[..i]);
      assert texts[..i + 1] == texts[..i] + [texts[i]];
    }
    assert texts[..|dependencies|] == texts;
  }

  method WriteExports(hasher: Hasher, keys: seq<string>, exports: map<string, string>)
    requires forall k :: k in keys ==> k in exports
    modifies hasher
    ensures hasher.written == old(hasher.written) + Frames(ExportTexts(keys, exports))
  {
    ghost var start := hasher.written;
    for i := 0 to |keys|
      invariant hasher.written == start + Frames(ExportTexts(keys[..i], exports))
    {
      ghost var texts := ExportTexts(keys[..i], exports);
      WriteNext(hasher, keys[i], start, texts);
      WriteNext(hasher, exports[keys[i]], start, texts + [keys[i]]);
      NextExport(keys, i, exports);
    }
    assert keys[..|keys|] == keys;
  }

  lemma NextExport(keys: seq<string>, i: nat, exports: map<string, string>)
    requires i < |keys| && forall k :: k in keys ==> k in exports
    ensures ExportTexts(keys[..i + 1], exports) == ExportTexts(keys[..i], exports) + [keys[i]] + [exports[keys[i]]]
  {
    assert keys[..i + 1] == keys[..i] + [keys[i]];
    ExportTextsAppend(keys[..i], keys[i], exports);
  }

  // Decoding ---------------------------------------------------------------------

  /** The first framed value of a stream and what follows it. */
  function Unframe(stream: string): Option<(string, string)> {
    var cut := CutAt(stream, ':');
    if !cut.found then None
    else match Atoi(cut.before)
      case None => None
      case Some(n) => if n <= |cut.after| then Some((cut.after[..n], cut.after[n..])) else None
  }

  lemma UnframeFrame(value: string, rest: string)
    ensures Unframe(Frame(value) + rest) == Some((value, rest))
  {
    var numeral := Itoa(|value|);
    var stream := Frame(value) + rest;
    assert stream == numeral + [':'] + (value + rest);
    CutAtFirst(numeral, ':', value + rest);
    AtoiItoa(|value|);
    assert (value + rest)[..|value|] == value && (value + rest)[|value|..] == rest;
  }

  /** All framed values of a stream, if it is made of frames only. */
  function Unframes(stream: string): Option<seq<string>>
    decreases |stream|
  {
    if stream == "" then Some([])
    else match Unframe(stream)
      case None => None
      case Some((value, rest)) =>
        match Unframes(rest)
        case None => None
        case Some(values) => Some([value] + values)
  }

  lemma UnframesNext(value: string, rest: string, values: seq<string>)
    requires Unframes(rest) == Some(values)
    ensures Unframes(Frame(value) + rest) == Some([value] + values)
  {
    UnframeFrame(value, rest);
    assert |Frame(value) + rest| > 0;
  }

  lemma {:induction false} UnframesFrames(values: seq<string>)
    ensures Unframes(Frames(values)) == Some(values)
  {
    if values != [] {
      UnframesFrames(values[1..]);
      UnframesNext(values[0], Frames(values[1..]), values[1..]);
      assert values == [values[0]] + values[1..];
    }
  }

  datatype Fields = Fields(
    targetLabel: string,
    up: string,
    down: string,
    ready: string,
    timeout: string,
    dependencies: seq<string>,
    exports: map<string, string>)

  ghost function FieldsOf(r: Resource): Fields {
    Fields(r.targetLabel.Print(), r.up, r.down, r.ready, r.timeout, LabelTexts(r.dependencies), r.exports)
  }

  function PairUp(texts: seq<string>): map<string, string> {
    if |texts| < 2 then map[] else PairUp(texts[2..])[texts[0] := texts[1]]
  }

  /** Inverts the framing, the counts and the export list. */
  function Decode(stream: string): Option<Fields> {
    match Unframes(stream)
    case None => None
    case Some(values) => DecodeValues(values)
  }

  function DecodeValues(v: seq<string>): Option<Fields> {
    if |v| < 6 then None
    else match Atoi(v[5])
      case None => None
      case Some(n) =>
        if |v| < 7 + n then None
        else Some(Fields(v[0], v[1], v[2], v[3], v[4], v[6..6 + n], PairUp(v[7 + n..])))
  }

  lemma {:induction false} PairUpExports(keys: seq<string>, exports: map<string, string>)
    requires StrictlySorted(keys) && forall k :: k in keys ==> k in exports
    ensures PairUp(ExportTexts(keys, exports)) == map k | k in exports && k in keys :: exports[k]
  {
    if keys != [] {
      var texts := ExportTexts(keys, exports);
      assert texts[2..] == ExportTexts(keys[1..], exports);
      PairUpExports(keys[1..], exports);
      assert keys == [keys[0]] + keys[1..];
    }
  }

  /** The stream of a resource decodes to exactly its definition. */
  lemma DecodeStream(r: Resource)
    ensures Decode(Frames(Values(r))) == Some(FieldsOf(r))
  {
    UnframesFrames(Values(r));
    ValuesDecode(r, Values(r));
  }

  lemma ValuesDecode(r: Resource, v: seq<string>)
    requires v == Values(r)
    ensures DecodeValues(v) == Some(FieldsOf(r))
  {
    SplitValues(r, v);
    AtoiItoa(|r.dependencies|);
    assert v[5] == v[..6][5];
    PairUpExports(SortedOf(r.exports.Keys), r.exports);
    assert (map k | k in r.exports && k in SortedOf(r.exports.Keys) :: r.exports[k]) == r.exports;
  }

  lemma SplitValues(r: Resource, v: seq<string>)
    requires v == Values(r)
    ensures var n := |r.dependencies|;
      && |v| >= 7 + n && v[..6] == HeadTexts(r)
      && v[6..6 + n] == LabelTexts(r.dependencies)
      && v[7 + n..] == ExportTexts(SortedOf(r.exports.Keys), r.exports)
  {
    assert v == HeadTexts(r) + LabelTexts(r.dependencies) + [Itoa(|r.exports|)]
      + ExportTexts(SortedOf(r.exports.Keys), r.exports);
  }

  predicate PrintableLabels(r: Resource) {
    && Printable(r.targetLabel)
    && forall i :: 0 <= i < |r.dependencies| ==> Printable(r.dependencies[i])
  }

  /**
   Resources hashed from the same stream have the same definition. Labels come back
   as labels, not only as texts, when they are printable.
   */
  lemma StreamIdentifiesResource(a: Resource, b: Resource)
    requires Frames(Values(a)) == Frames(Values(b))
    ensures FieldsOf(a) == FieldsOf(b)
    ensures PrintableLabels(a) && PrintableLabels(b) ==> a == b
  {
    DecodeStream(a);
    DecodeStream(b);
    if PrintableLabels(a) && PrintableLabels(b) {
      PrintInjective(a.targetLabel, b.targetLabel);
      assert |a.dependencies| == |LabelTexts(a.dependencies)| == |b.dependencies|;
      forall i | 0 <= i < |a.dependencies| ensures a.dependencies[i] == b.dependencies[i] {
        assert LabelTexts(a.dependencies)[i] == LabelTexts(b.dependencies)[i];
        PrintInjective(a.dependencies[i], b.dependencies[i]);
      }
    }
  }
}
