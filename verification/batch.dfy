/** The stream transform: `collect` buffers every incoming font file, and `spit`, at the
    end of the stream, groups the files by extension and emits one stylesheet per group,
    named after the output base and the extension, holding the group's rules in order. */
module Batch {
  import opened Wrappers
  import opened Files
  import opened FontSheets
  import opened FaceRules
  import opened Grouping

  /** The plugin's state between files: the buffered files and the list of keys the
      duplicate guard consults, which nothing but `spit`'s reset ever assigns. */
  datatype Aggregator = Aggregator(files: seq<FontFile>, processed: seq<string>)

  const Fresh: Aggregator := Aggregator([], [])

  /** What the stream hands over: a buffered file, or a file whose contents are a stream. */
  datatype Input = Buffered(file: FontFile) | Streamed(path: string)

  const StreamError: string := "Streams not supported in font-css"

  /** A stylesheet the plugin pushes downstream. */
  datatype OutFile = OutFile(path: string, contents: string)

  /** `createFontFaceFromFile` as a function of the key list it consults and the file. */
  type Builder = (seq<string>, FontFile) -> Result<FaceRule, Skip>

  /** One turn of the outer loop of `spit`: from an extension and the key list so far to
      that extension's stylesheet and the grown key list. */
  type Turn = (string, seq<string>) -> (OutFile, seq<string>)

  /** The text between two rules of a stylesheet, and after the last one. */
  const Separator: string := "\r\n\r\n"

  /** `collect`: a streamed file or one without a path is refused; any other file is
      appended to the buffer. */
  function Collect(agg: Aggregator, input: Input): (r: Result<Aggregator, string>)
    ensures r.Err? <==> input.Streamed? || input.file.path == ""
    ensures r.Err? ==> r.error == StreamError
    ensures r.Ok? ==> r.value.files == agg.files + [input.file] && r.value.processed == agg.processed
  {
    if input.Streamed? || input.file.path == "" then Err(StreamError)
    else Ok(agg.(files := agg.files + [input.file]))
  }

  predicate Accepted(input: Input) {
    input.Buffered? && input.file.path != ""
  }

  /** A whole stream of inputs, stopping at the first refusal. */
  function CollectAll(agg: Aggregator, inputs: seq<Input>): Result<Aggregator, string>
    decreases |inputs|
  {
    if inputs == [] then Ok(agg)
    else match Collect(agg, inputs[0])
      case Err(e) => Err(e)
      case Ok(next) => CollectAll(next, inputs[1..])
  }

  /** Collecting succeeds exactly when every input is an accepted file; the buffer then
      holds the earlier files followed by the new ones in arrival order, and the key list
      is as it was. */
  lemma {:induction false} CollectAllBuffers(agg: Aggregator, inputs: seq<Input>)
    ensures CollectAll(agg, inputs).Ok? <==> forall k :: 0 <= k < |inputs| ==> Accepted(inputs[k])
    ensures CollectAll(agg, inputs).Ok? ==>
      && |CollectAll(agg, inputs).value.files| == |agg.files| + |inputs|
      && CollectAll(agg, inputs).value.files[..|agg.files|] == agg.files
      && (forall k :: 0 <= k < |inputs| ==> CollectAll(agg, inputs).value.files[|agg.files| + k] == inputs[k].file)
      && CollectAll(agg, inputs).value.processed == agg.processed
    decreases |inputs|
  {
    if inputs != [] {
      var c := Collect(agg, inputs[0]);
      if c.Ok? {
        CollectAllBuffers(c.value, inputs[1..]);
        var r := CollectAll(c.value, inputs[1..]);
        if r.Ok? {
          forall k | 0 <= k < |inputs|
            ensures r.value.files[|agg.files| + k] == inputs[k].file
          {
            if k > 0 {
              assert inputs[1..][k - 1] == inputs[k];
            }
          }
          assert r.value.files[..|agg.files|] == c.value.files[..|c.value.files|][..|agg.files|];
        }
        forall k | 0 <= k < |inputs| - 1
          ensures inputs[1..][k] == inputs[k + 1]
        {
        }
      }
    }
  }

  // ---------------------------------------------------------------------------------
  // The rules of one group

  /** The texts `entry` gives the rules, one after another. */
  function Joined(rules: seq<FaceRule>, entry: FaceRule -> string): (t: string)
    ensures (forall r :: entry(r) != "") ==> (t == "" <==> rules == [])
    decreases |rules|
  {
    if rules == [] then ""
    else Joined(rules[..|rules| - 1], entry) + entry(rules[|rules| - 1])
  }

  lemma JoinedSnoc(rules: seq<FaceRule>, r: FaceRule, entry: FaceRule -> string)
    ensures Joined(rules + [r], entry) == Joined(rules, entry) + entry(r)
  {
    assert (rules + [r])[..|rules|] == rules;
  }

  /** Joining two runs of rules is joining each and putting the texts side by side. */
  lemma {:induction false} JoinedConcat(a: seq<FaceRule>, b: seq<FaceRule>, entry: FaceRule -> string)
    ensures Joined(a + b, entry) == Joined(a, entry) + Joined(b, entry)
    decreases |b|
  {
    if b == [] {
      assert a + b == a;
    } else {
      var init, r := b[..|b| - 1], b[|b| - 1];
      assert b == init + [r];
      assert a + b == (a + init) + [r];
      JoinedConcat(a, init, entry);
      JoinedSnoc(a + init, r, entry);
      JoinedSnoc(init, r, entry);
      ConcatAssoc(Joined(a, entry), Joined(init, entry), entry(r));
    }
  }

  lemma ConcatAssoc(x: string, y: string, z: string)
    ensures (x + y) + z == x + (y + z)
  {
  }

  /** One rule's contribution to a stylesheet: its text and a blank line (CRLF line ends). */
  function Entry(rule: FaceRule): (t: string)
    ensures |t| > |Separator| && t[|t| - |Separator|..] == Separator
  {
    RenderRule(rule) + Separator
  }

  /** The body of a stylesheet: the entries of its rules in order; empty exactly when
      there are no rules. */
  function Stylesheet(rules: seq<FaceRule>): (t: string)
    ensures t == "" <==> rules == []
  {
    assert forall r :: Entry(r) != "";
    Joined(rules, Entry)
  }

  /** The rules a group of files yields when every file is checked against the same key
      list, in order; a skipped file contributes nothing. */
  function Faces(group: seq<FontFile>, make: FontFile -> Result<FaceRule, Skip>): (rs: seq<FaceRule>)
    ensures |rs| <= |group|
    ensures rs == [] <==> forall k :: 0 <= k < |group| ==> make(group[k]).Err?
    decreases |group|
  {
    if group == [] then []
    else
      var init := Faces(group[..|group| - 1], make);
      assert forall k :: 0 <= k < |group| - 1 ==> group[..|group| - 1][k] == group[k];
      match make(group[|group| - 1])
      case Ok(rule) => init + [rule]
      case Err(_) => init
  }

  /** What one file contributes: its rule, or nothing when it is skipped. */
  function FaceOf(make: FontFile -> Result<FaceRule, Skip>, f: FontFile): seq<FaceRule> {
    if make(f).Ok? then [make(f).value] else []
  }

  /** A group yields no rule exactly when every one of its files is refused. */
  lemma FacesEmpty(group: seq<FontFile>, make: FontFile -> Result<FaceRule, Skip>)
    ensures Faces(group, make) == [] <==> forall f :: f in group ==> make(f).Err?
  {
    if forall f :: f in group ==> make(f).Err? {
      assert forall k :: 0 <= k < |group| ==> group[k] in group;
    }
  }

  /** A single file yields its own rule, or nothing. */
  lemma FacesSingle(make: FontFile -> Result<FaceRule, Skip>, f: FontFile)
    ensures Faces([f], make) == FaceOf(make, f)
  {
    assert [f][..0] == [];
  }

  lemma FacesStep(group: seq<FontFile>, make: FontFile -> Result<FaceRule, Skip>, j: nat)
    requires j < |group|
    ensures Faces(group[..j + 1], make) == Faces(group[..j], make) + FaceOf(make, group[j])
  {
    assert group[..j + 1][..j] == group[..j];
  }

  /** The rules of two runs of files are the rules of each, side by side: no file's rule
      depends on the files around it. */
  lemma {:induction false} FacesAppend(a: seq<FontFile>, b: seq<FontFile>, make: FontFile -> Result<FaceRule, Skip>)
    ensures Faces(a + b, make) == Faces(a, make) + Faces(b, make)
    decreases |b|
  {
    if b == [] {
      assert a + b == a;
    } else {
      var init, last := b[..|b| - 1], b[|b| - 1];
      assert b == init + [last];
      assert a + b == (a + init) + [last];
      assert (a + b)[..|a + b| - 1] == a + init;
      FacesAppend(a, init, make);
      assert b[..|b| - 1] == init;
      assert Faces(b, make) == Faces(init, make) + FaceOf(make, last);
      assert Faces(a + b, make) == Faces(a + init, make) + FaceOf(make, last);
    }
  }

  /** `createFontFaceFromFile` against a fixed key list. */
  function FixedBuilder(cfg: Config, processed: seq<string>): FontFile -> Result<FaceRule, Skip> {
    file => CreateFontFace(cfg, processed, file)
  }

  /** The inner loop of `spit` as written, for any rule builder and rule text: each file
      of the group goes through the builder in turn, and an emitted rule's text is
      appended; nothing the builder consults changes along the way. */
  method RenderFaces(make: FontFile -> Result<FaceRule, Skip>, entry: FaceRule -> string, group: seq<FontFile>)
    returns (body: string)
    ensures body == Joined(Faces(group, make), entry)
  {
    body := "";
    var j := 0;
    while j < |group|
      invariant j <= |group|
      invariant body == Joined(Faces(group[..j], make), entry)
    {
      var made := make(group[j]);
      FacesStep(group, make, j);
      if made.Ok? {
        JoinedSnoc(Faces(group[..j], make), made.value, entry);
        body := body + entry(made.value);
      } else {
        assert Faces(group[..j + 1], make) == Faces(group[..j], make);
      }
      j := j + 1;
    }
    assert group[..j] == group;
  }

  // ---------------------------------------------------------------------------------
  // The duplicate guard as evidently intended


  /** The duplicate guard as evidently intended, for any face builder `face` and key
      function `key`: each emitted rule's key is recorded before the next file is seen.
      The result is the rules emitted, in order, and the key list after the last file,
      which grows by exactly one key per rule and keeps the earlier keys in front. */
  function DedupWith(face: Builder, key: FontFile -> string,
                     processed: seq<string>, group: seq<FontFile>): (r: (seq<FaceRule>, seq<string>))
    ensures |r.0| <= |group|
    ensures |r.1| == |processed| + |r.0| && processed <= r.1
    decreases |group|
  {
    if group == [] then ([], processed)
    else
      var prev := DedupWith(face, key, processed, group[..|group| - 1]);
      var last := group[|group| - 1];
      match face(prev.1, last)
      case Err(_) => prev
      case Ok(rule) => (prev.0 + [rule], prev.1 + [key(last)])
  }

  lemma DedupStep(face: Builder, key: FontFile -> string,
                  processed: seq<string>, group: seq<FontFile>, j: nat)
    requires j < |group|
    ensures var prev := DedupWith(face, key, processed, group[..j]);
      DedupWith(face, key, processed, group[..j + 1])
      == if face(prev.1, group[j]).Ok? then (prev.0 + [face(prev.1, group[j]).value], prev.1 + [key(group[j])])
         else prev
  {
    assert group[..j + 1][..j] == group[..j];
  }

  /** The guarded loop emits nothing exactly when every file of the group is refused
      against the key list it starts from: until a rule is emitted the list stays as it
      was. */
  lemma {:induction false} DedupWithEmpty(face: Builder,
                                          key: FontFile -> string, processed: seq<string>, group: seq<FontFile>)
    ensures DedupWith(face, key, processed, group).0 == []
        <==> forall f :: f in group ==> face(processed, f).Err?
    decreases |group|
  {
    if group != [] {
      var init := group[..|group| - 1];
      var last := group[|group| - 1];
      assert group == init + [last];
      DedupWithEmpty(face, key, processed, init);
      var prev := DedupWith(face, key, processed, init);
      if prev.0 == [] {
        assert prev.1 == processed;
      }
    }
  }

  /** The key the plugin records for a file: that of its mapped sheet and extension. */
  function FaceKey(cfg: Config, f: FontFile): string {
    if MappedSheet(cfg, f).Some? then ProcessedKey(MappedSheet(cfg, f).value, ExtOf(f)) else ""
  }

  function FaceBuilder(cfg: Config): Builder {
    (p, f) => CreateFontFace(cfg, p, f)
  }

  function FaceKeyOf(cfg: Config): FontFile -> string {
    f => FaceKey(cfg, f)
  }

  /** The plugin's rule building with the guard working. */
  function DedupFaces(cfg: Config, processed: seq<string>, group: seq<FontFile>): (seq<FaceRule>, seq<string>) {
    DedupWith(FaceBuilder(cfg), FaceKeyOf(cfg), processed, group)
  }

  /** The inner loop of `spit` for any face builder, key function and rule text: the
      stylesheet of one group, and the key list grown by the key of every rule emitted. */
  method RenderGroup(face: Builder, key: FontFile -> string,
                    entry: FaceRule -> string, processed: seq<string>, group: seq<FontFile>)
    returns (body: string, recorded: seq<string>)
    ensures body == Joined(DedupWith(face, key, processed, group).0, entry)
    ensures recorded == DedupWith(face, key, processed, group).1
  {
    body := "";
    recorded := processed;
    ghost var rules: seq<FaceRule> := [];
    var j := 0;
    while j < |group|
      invariant j <= |group|
      invariant (rules, recorded) == DedupWith(face, key, processed, group[..j])
      invariant body == Joined(rules, entry)
    {
      var made := face(recorded, group[j]);
      RenderTurn(face, key, entry, processed, group, j, rules, recorded, body);
      if made.Ok? {
        body := body + entry(made.value);
        recorded := recorded + [key(group[j])];
        rules := rules + [made.value];
      }
      j := j + 1;
    }
    assert group[..j] == group;
  }

  /** One turn of the inner loop keeps the text and the key list in step with the guarded
      loop's definition. */
  lemma RenderTurn(face: Builder, key: FontFile -> string,
                   entry: FaceRule -> string, processed: seq<string>, group: seq<FontFile>, j: nat,
                   rules: seq<FaceRule>, recorded: seq<string>, body: string)
    requires j < |group| && (rules, recorded) == DedupWith(face, key, processed, group[..j])
    requires body == Joined(rules, entry)
    ensures var made := face(recorded, group[j]);
      && (made.Ok? ==> (rules + [made.value], recorded + [key(group[j])]) == DedupWith(face, key, processed, group[..j + 1])
                       && body + entry(made.value) == Joined(rules + [made.value], entry))
      && (made.Err? ==> (rules, recorded) == DedupWith(face, key, processed, group[..j + 1]))
  {
    DedupStep(face, key, processed, group, j);
    if face(recorded, group[j]).Ok? {
      JoinedSnoc(rules, face(recorded, group[j]).value, entry);
    }
  }

  // ---------------------------------------------------------------------------------
  // The stylesheets

  /** The name of the stylesheet for one extension: the output base, a dash, the
      extension and ".css", from which the base and the extension can be read back. */
  function OutputPath(cfg: Config, ext: string): (r: string)
    ensures |r| == |cfg.outputBase| + |ext| + 5
    ensures r[..|cfg.outputBase|] == cfg.outputBase && r[|cfg.outputBase|] == '-'
    ensures r[|cfg.outputBase| + 1..|r| - 4] == ext && r[|r| - 4..] == ".css"
  {
    var r := cfg.outputBase + "-" + ext + ".css";
    assert r[|cfg.outputBase| + 1..|r| - 4] == ext;
    r
  }

  function PathOf(cfg: Config): string -> string {
    e => OutputPath(cfg, e)
  }

  /** The stylesheet, named by `name`, of the files with extension `e`. */
  function SheetOf(make: FontFile -> Result<FaceRule, Skip>, entry: FaceRule -> string,
                   name: string -> string, files: seq<FontFile>, e: string): OutFile {
    OutFile(name(e), Joined(Faces(FilesWithKey(files, ExtOf, e), make), entry))
  }

  /** The stylesheets of the extensions `es`, in order. */
  function SheetsOver(make: FontFile -> Result<FaceRule, Skip>, entry: FaceRule -> string,
                      name: string -> string, files: seq<FontFile>, es: seq<string>): (outs: seq<OutFile>)
    ensures |outs| == |es|
    decreases |es|
  {
    if es == [] then []
    else SheetsOver(make, entry, name, files, es[..|es| - 1]) + [SheetOf(make, entry, name, files, es[|es| - 1])]
  }

  lemma SheetsOverStep(make: FontFile -> Result<FaceRule, Skip>, entry: FaceRule -> string,
                       name: string -> string, files: seq<FontFile>, es: seq<string>, k: nat)
    requires k < |es|
    ensures SheetsOver(make, entry, name, files, es[..k + 1])
         == SheetsOver(make, entry, name, files, es[..k]) + [SheetOf(make, entry, name, files, es[k])]
  {
    assert es[..k + 1][..k] == es[..k];
  }

  /** The `k`-th stylesheet is the one of the `k`-th extension. */
  lemma {:induction false} SheetsOverAt(make: FontFile -> Result<FaceRule, Skip>, entry: FaceRule -> string,
                                        name: string -> string, files: seq<FontFile>, es: seq<string>, k: nat)
    requires k < |es|
    ensures SheetsOver(make, entry, name, files, es)[k] == SheetOf(make, entry, name, files, es[k])
    decreases |es|
  {
    if k < |es| - 1 {
      SheetsOverAt(make, entry, name, files, es[..|es| - 1], k);
    }
  }

  /** One stylesheet per extension, in first-seen order. */
  function Sheets(make: FontFile -> Result<FaceRule, Skip>, entry: FaceRule -> string,
                  name: string -> string, files: seq<FontFile>): (outs: seq<OutFile>)
    ensures |outs| == |KeysInOrder(files, ExtOf)|
  {
    SheetsOver(make, entry, name, files, KeysInOrder(files, ExtOf))
  }

  /** A stylesheet is empty exactly when the builder refuses every file of its extension. */
  lemma SheetOfEmpty(make: FontFile -> Result<FaceRule, Skip>, entry: FaceRule -> string,
                     name: string -> string, files: seq<FontFile>, e: string)
    requires forall r :: entry(r) != ""
    ensures SheetOf(make, entry, name, files, e).contents == ""
        <==> forall f :: f in files && ExtOf(f) == e ==> make(f).Err?
  {
    FacesEmpty(FilesWithKey(files, ExtOf, e), make);
  }

  /** The outer loop of `spit` as written, for any rule builder, rule text and naming:
      bucket the files by extension, then render each bucket with the inner loop. */
  method SpitFixed(make: FontFile -> Result<FaceRule, Skip>, entry: FaceRule -> string,
                   name: string -> string, files: seq<FontFile>)
    returns (outs: seq<OutFile>)
    ensures outs == Sheets(make, entry, name, files)
  {
    var order, sorted := Bucket(files, ExtOf);
    outs := [];
    var k := 0;
    while k < |order|
      invariant 0 <= k <= |order|
      invariant outs == SheetsOver(make, entry, name, files, order[..k])
    {
      var ext := order[k];
      var body := RenderFaces(make, entry, sorted[ext]);
      SheetsOverStep(make, entry, name, files, order, k);
      outs := outs + [OutFile(name(ext), body)];
      k := k + 1;
    }
    assert order[..k] == order;
  }

  /** What `spit` pushes: one stylesheet per extension, in first-seen order, every file
      checked against the aggregator's key list, which nothing extends. */
  function SpitOutputs(cfg: Config, agg: Aggregator): (outs: seq<OutFile>)
    ensures |outs| == |KeysInOrder(agg.files, ExtOf)|
  {
    Sheets(FixedBuilder(cfg, agg.processed), Entry, PathOf(cfg), agg.files)
  }

  /** The `m`-th stylesheet: named after the `m`-th extension, holding the rules of that
      extension's files, each built against the aggregator's key list. */
  lemma SpitOutputAt(cfg: Config, agg: Aggregator, m: nat)
    requires m < |KeysInOrder(agg.files, ExtOf)|
    ensures var e := KeysInOrder(agg.files, ExtOf)[m];
      SpitOutputs(cfg, agg)[m]
      == OutFile(OutputPath(cfg, e),
                 Stylesheet(Faces(FilesWithKey(agg.files, ExtOf, e), FixedBuilder(cfg, agg.processed))))
  {
    SheetsOverAt(FixedBuilder(cfg, agg.processed), Entry, PathOf(cfg), agg.files, KeysInOrder(agg.files, ExtOf), m);
  }

  /** `spit`: the outer loop with the plugin's builder against the aggregator's key list;
      the buffer and the key list start afresh. */
  method Spit(cfg: Config, agg: Aggregator) returns (outs: seq<OutFile>, next: Aggregator)
    ensures outs == SpitOutputs(cfg, agg)
    ensures next == Fresh
  {
    outs := SpitFixed(FixedBuilder(cfg, agg.processed), Entry, PathOf(cfg), agg.files);
    next := Fresh;
  }

  /** Output names differ exactly when extensions do, so no two stylesheets collide. */
  lemma OutputPathInjective(cfg: Config, e1: string, e2: string)
    ensures OutputPath(cfg, e1) == OutputPath(cfg, e2) <==> e1 == e2
  {
  }

  /** `spit` pushes one stylesheet per extension, and no two share a name. */
  lemma SpitPathsDistinct(cfg: Config, agg: Aggregator)
    ensures var outs := SpitOutputs(cfg, agg);
      forall i, j :: 0 <= i < j < |outs| ==> outs[i].path != outs[j].path
  {
    var outs := SpitOutputs(cfg, agg);
    var es := KeysInOrder(agg.files, ExtOf);
    forall i, j | 0 <= i < j < |outs|
      ensures outs[i].path != outs[j].path
    {
      SpitOutputAt(cfg, agg, i);
      SpitOutputAt(cfg, agg, j);
      OutputPathInjective(cfg, es[i], es[j]);
    }
  }

  /** A stylesheet for extension `e` is pushed exactly when some buffered file has that
      extension. */
  lemma SpitOutputExists(cfg: Config, agg: Aggregator, e: string)
    ensures var outs := SpitOutputs(cfg, agg);
      (exists i :: 0 <= i < |outs| && outs[i].path == OutputPath(cfg, e))
        <==> exists k :: 0 <= k < |agg.files| && ExtOf(agg.files[k]) == e
  {
    var outs := SpitOutputs(cfg, agg);
    var es := KeysInOrder(agg.files, ExtOf);
    KeysInOrderComplete(agg.files, ExtOf, e);
    forall i | 0 <= i < |outs|
      ensures outs[i].path == OutputPath(cfg, e) <==> es[i] == e
    {
      SpitOutputAt(cfg, agg, i);
      OutputPathInjective(cfg, es[i], e);
    }
  }

  /** The stylesheet for extension `e` holds the rules of the files with that extension,
      in buffer order, each built against the aggregator's key list, and is empty exactly
      when every one of them is refused. */
  lemma SpitOutputContents(cfg: Config, agg: Aggregator, e: string, i: nat)
    requires i < |SpitOutputs(cfg, agg)| && SpitOutputs(cfg, agg)[i].path == OutputPath(cfg, e)
    ensures var make := FixedBuilder(cfg, agg.processed);
      && SpitOutputs(cfg, agg)[i].contents == Stylesheet(Faces(FilesWithKey(agg.files, ExtOf, e), make))
      && (SpitOutputs(cfg, agg)[i].contents == ""
          <==> forall f :: f in agg.files && ExtOf(f) == e ==> CreateFontFace(cfg, agg.processed, f).Err?)
  {
    SpitOutputAt(cfg, agg, i);
    OutputPathInjective(cfg, KeysInOrder(agg.files, ExtOf)[i], e);
    SheetOfEmpty(FixedBuilder(cfg, agg.processed), Entry, PathOf(cfg), agg.files, e);
  }

  /** Every aggregator a stream of inputs can lead to has an empty key list. */
  lemma CollectedKeysEmpty(inputs: seq<Input>)
    requires CollectAll(Fresh, inputs).Ok?
    ensures CollectAll(Fresh, inputs).value.processed == []
  {
    CollectAllBuffers(Fresh, inputs);
  }

  /** Hence the duplicate guard of `createFontFaceFromFile` never fires in `spit`: after
      any stream of inputs, every stylesheet is built against the empty key list, and no
      file of any group is skipped as already processed. */
  lemma DuplicateGuardNeverFires(cfg: Config, inputs: seq<Input>, i: nat)
    requires CollectAll(Fresh, inputs).Ok?
    requires i < |SpitOutputs(cfg, CollectAll(Fresh, inputs).value)|
    ensures var agg := CollectAll(Fresh, inputs).value;
      var e := KeysInOrder(agg.files, ExtOf)[i];
      && SpitOutputs(cfg, agg)[i].contents == Stylesheet(Faces(FilesWithKey(agg.files, ExtOf, e), FixedBuilder(cfg, [])))
      && forall f :: f in agg.files && ExtOf(f) == e ==>
           !(FixedBuilder(cfg, [])(f).Err? && FixedBuilder(cfg, [])(f).error.AlreadyProcessed?)
  {
    var agg := CollectAll(Fresh, inputs).value;
    CollectedKeysEmpty(inputs);
    SpitOutputAt(cfg, agg, i);
  }

  // ---------------------------------------------------------------------------------
  // `spit` with the guard working

  /** Runs `sheet` over the extensions `es` in order, each turn producing one stylesheet
      and handing the grown key list on to the next; the result is the stylesheets and
      the final key list. */
  function Pipeline(sheet: Turn, es: seq<string>, p0: seq<string>)
    : (r: (seq<OutFile>, seq<string>))
    ensures |r.0| == |es|
    decreases |es|
  {
    if es == [] then ([], p0)
    else
      var prev := Pipeline(sheet, es[..|es| - 1], p0);
      var next := sheet(es[|es| - 1], prev.1);
      (prev.0 + [next.0], next.1)
  }

  /** One turn: the stylesheet the turn makes is appended and its key list handed on. */
  lemma PipelineStep(sheet: Turn, es: seq<string>, p0: seq<string>,
                     k: nat, outs: seq<OutFile>, recorded: seq<string>, out: OutFile, grown: seq<string>)
    requires k < |es| && (outs, recorded) == Pipeline(sheet, es[..k], p0)
    requires sheet(es[k], recorded) == (out, grown)
    ensures (outs + [out], grown) == Pipeline(sheet, es[..k + 1], p0)
  {
    assert es[..k + 1][..k] == es[..k];
  }

  /** The turn for extension `k` sees the stylesheets before it unchanged: the `k`-th
      stylesheet is made from the key list the first `k` turns leave. */
  lemma {:induction false} PipelineAt(sheet: Turn, es: seq<string>,
                                      p0: seq<string>, k: nat)
    requires k < |es|
    ensures Pipeline(sheet, es, p0).0[k] == sheet(es[k], Pipeline(sheet, es[..k], p0).1).0
    decreases |es|
  {
    var init := es[..|es| - 1];
    if k < |es| - 1 {
      PipelineAt(sheet, init, p0, k);
      assert init[..k] == es[..k];
    } else {
      assert init == es[..k];
    }
  }

  /** One turn of the guarded outer loop: the stylesheet, named by `name`, of the files
      with extension `e`, whose rules the guarded loop builds against the key list `p`. */
  function SheetWith(face: Builder, key: FontFile -> string,
                     entry: FaceRule -> string, name: string -> string, files: seq<FontFile>)
    : Turn
  {
    (e, p) =>
      var g := DedupWith(face, key, p, FilesWithKey(files, ExtOf, e));
      (OutFile(name(e), Joined(g.0, entry)), g.1)
  }

  lemma SheetWithOf(face: Builder, key: FontFile -> string,
                    entry: FaceRule -> string, name: string -> string, files: seq<FontFile>,
                    e: string, p: seq<string>, body: string, grown: seq<string>)
    requires body == Joined(DedupWith(face, key, p, FilesWithKey(files, ExtOf, e)).0, entry)
    requires grown == DedupWith(face, key, p, FilesWithKey(files, ExtOf, e)).1
    ensures SheetWith(face, key, entry, name, files)(e, p) == (OutFile(name(e), body), grown)
  {
  }

  lemma SpitTurn(face: Builder, key: FontFile -> string,
                 entry: FaceRule -> string, name: string -> string, files: seq<FontFile>,
                 order: seq<string>, p0: seq<string>, k: nat,
                 outs: seq<OutFile>, recorded: seq<string>, body: string, grown: seq<string>)
    requires k < |order| && (outs, recorded) == Pipeline(SheetWith(face, key, entry, name, files), order[..k], p0)
    requires body == Joined(DedupWith(face, key, recorded, FilesWithKey(files, ExtOf, order[k])).0, entry)
    requires grown == DedupWith(face, key, recorded, FilesWithKey(files, ExtOf, order[k])).1
    ensures (outs + [OutFile(name(order[k]), body)], grown)
         == Pipeline(SheetWith(face, key, entry, name, files), order[..k + 1], p0)
  {
    SheetWithOf(face, key, entry, name, files, order[k], recorded, body, grown);
    PipelineStep(SheetWith(face, key, entry, name, files), order, p0, k, outs, recorded, OutFile(name(order[k]), body), grown);
  }

  /** The guarded outer loop for any face builder, key function, rule text and naming:
      bucket the files by extension, then render each bucket, carrying the key list from
      one bucket to the next. */
  method SpitWith(face: Builder, key: FontFile -> string,
                  entry: FaceRule -> string, name: string -> string, files: seq<FontFile>, p0: seq<string>)
    returns (outs: seq<OutFile>)
    ensures outs == Pipeline(SheetWith(face, key, entry, name, files), KeysInOrder(files, ExtOf), p0).0
  {
    var order, sorted := Bucket(files, ExtOf);
    ghost var sheet := SheetWith(face, key, entry, name, files);
    outs := [];
    var recorded := p0;
    var k := 0;
    while k < |order|
      invariant 0 <= k <= |order|
      invariant (outs, recorded) == Pipeline(sheet, order[..k], p0)
    {
      var ext := order[k];
      var body, grown := RenderGroup(face, key, entry, recorded, sorted[ext]);
      SpitTurn(face, key, entry, name, files, order, p0, k, outs, recorded, body, grown);
      outs := outs + [OutFile(name(ext), body)];
      recorded := grown;
      k := k + 1;
    }
    assert order[..k] == order;
  }

  /** One guarded turn with the plugin's builder, key, rule text and naming. */
  function GroupSheet(cfg: Config, files: seq<FontFile>): Turn {
    SheetWith(FaceBuilder(cfg), FaceKeyOf(cfg), Entry, PathOf(cfg), files)
  }

  /** What `spit` would push with each emitted rule's key recorded: one stylesheet per
      extension, the key list carried from one to the next. */
  function SpitDedupOutputs(cfg: Config, agg: Aggregator): (outs: seq<OutFile>)
    ensures |outs| == |KeysInOrder(agg.files, ExtOf)|
  {
    Pipeline(GroupSheet(cfg, agg.files), KeysInOrder(agg.files, ExtOf), agg.processed).0
  }

  /** The key list as the `m`-th guarded stylesheet is started. */
  function RecordedBefore(cfg: Config, agg: Aggregator, m: nat): seq<string>
    requires m <= |KeysInOrder(agg.files, ExtOf)|
  {
    Pipeline(GroupSheet(cfg, agg.files), KeysInOrder(agg.files, ExtOf)[..m], agg.processed).1
  }

  /** The `m`-th guarded stylesheet: named after the `m`-th extension, holding the rules
      the guarded loop emits for that extension's files against the keys recorded so far;
      no two of them declare the same family, weight and style. */
  lemma SpitDedupOutputAt(cfg: Config, agg: Aggregator, m: nat)
    requires m < |KeysInOrder(agg.files, ExtOf)|
    ensures var e := KeysInOrder(agg.files, ExtOf)[m];
      var rs := DedupFaces(cfg, RecordedBefore(cfg, agg, m), FilesWithKey(agg.files, ExtOf, e)).0;
      && SpitDedupOutputs(cfg, agg)[m] == OutFile(OutputPath(cfg, e), Stylesheet(rs))
      && forall i, j :: 0 <= i < j < |rs| ==> Variant(rs[i]) != Variant(rs[j])
  {
    var e := KeysInOrder(agg.files, ExtOf)[m];
    PipelineAt(GroupSheet(cfg, agg.files), KeysInOrder(agg.files, ExtOf), agg.processed, m);
    DedupVariantsDistinct(cfg, RecordedBefore(cfg, agg, m), FilesWithKey(agg.files, ExtOf, e), e);
  }

  /** `spit` with the guard working: the guarded outer loop with the plugin's builder, so
      an emitted rule's key is recorded; the buffer and the key list start afresh. */
  method SpitDedup(cfg: Config, agg: Aggregator) returns (outs: seq<OutFile>, next: Aggregator)
    ensures outs == SpitDedupOutputs(cfg, agg)
    ensures next == Fresh
  {
    outs := SpitWith(FaceBuilder(cfg), FaceKeyOf(cfg), Entry, PathOf(cfg), agg.files, agg.processed);
    next := Fresh;
  }



  /** As written: two files that map to the same variant in the same known format both
      yield a rule, and the two rules declare the same family, weight and style. */
  lemma DuplicatesBothEmitted(cfg: Config, a: FontFile, b: FontFile)
    requires MappedSheet(cfg, a).Some? && MappedSheet(cfg, a) == MappedSheet(cfg, b)
    requires ExtOf(a) == ExtOf(b) && UrlBegin(ExtOf(a)).Some?
    ensures CreateFontFace(cfg, [], a).Ok? && CreateFontFace(cfg, [], b).Ok?
    ensures Variant(CreateFontFace(cfg, [], a).value) == Variant(CreateFontFace(cfg, [], b).value)
    ensures |Faces([a, b], FixedBuilder(cfg, []))| == 2
  {
    FirstCopyAccepted(cfg, a);
    FirstCopyAccepted(cfg, b);
    FacesOfTwo(FixedBuilder(cfg, []), a, b);
  }

  lemma FacesOfTwo(make: FontFile -> Result<FaceRule, Skip>, a: FontFile, b: FontFile)
    requires make(a).Ok? && make(b).Ok?
    ensures |Faces([a, b], make)| == 2
  {
    assert [a, b][..1] == [a];
    assert [a][..0] == [];
  }

  /** The family, weight and style a rule declares. */
  function Variant(rule: FaceRule): (string, int, string) {
    (rule.family, rule.weight, rule.style)
  }

  /** The key of an emitted rule, rebuilt from the rule and its file's extension. */
  function RuleKey(rule: FaceRule, ext: string): string {
    ProcessedKey(FontSheet(Some(rule.family), rule.weight, rule.style), ext)
  }

  lemma RuleKeyOfFace(cfg: Config, processed: seq<string>, f: FontFile)
    requires CreateFontFace(cfg, processed, f).Ok?
    ensures RuleKey(CreateFontFace(cfg, processed, f).value, ExtOf(f))
         == ProcessedKey(MappedSheet(cfg, f).value, ExtOf(f))
  {
    RuleKeyOfParts(CreateFontFace(cfg, processed, f).value, MappedSheet(cfg, f).value, ExtOf(f));
  }

  /** A rule declaring a sheet's family, weight and style has that sheet's key. */
  lemma RuleKeyOfParts(r: FaceRule, s: FontSheet, e: string)
    requires r.family == FamilyText(s.family) && r.weight == s.weight && r.style == s.style
    ensures RuleKey(r, e) == ProcessedKey(s, e)
  {
  }

  /** The keys of `rs` are not in `processed` and differ pairwise. */
  predicate KeysFresh(rs: seq<FaceRule>, e: string, processed: seq<string>) {
    && (forall i :: 0 <= i < |rs| ==> RuleKey(rs[i], e) !in processed)
    && (forall i, j :: 0 <= i < j < |rs| ==> RuleKey(rs[i], e) != RuleKey(rs[j], e))
  }

  /** The key list `p` is `processed` followed by the keys of `rs`, in order. */
  predicate RecordsKeys(rs: seq<FaceRule>, e: string, processed: seq<string>, p: seq<string>) {
    && |p| == |processed| + |rs| && processed <= p
    && forall i :: 0 <= i < |rs| ==> p[|processed| + i] == RuleKey(rs[i], e)
  }

  /** A rule whose key is not yet recorded keeps the keys fresh once recorded. */
  lemma KeysFreshSnoc(rs: seq<FaceRule>, r: FaceRule, e: string, processed: seq<string>, p: seq<string>)
    requires KeysFresh(rs, e, processed) && RecordsKeys(rs, e, processed, p)
    requires RuleKey(r, e) !in p
    ensures KeysFresh(rs + [r], e, processed) && RecordsKeys(rs + [r], e, processed, p + [RuleKey(r, e)])
  {
    assert p[..|processed|] == processed;
    forall i | 0 <= i < |rs|
      ensures RuleKey(rs[i], e) != RuleKey(r, e)
    {
      assert p[|processed| + i] == RuleKey(rs[i], e);
    }
  }

  /** A face builder that refuses recorded keys and whose rules carry their file's key. */
  ghost predicate KeyedBuilder(face: Builder,
                               key: FontFile -> string, e: string) {
    forall p, f :: ExtOf(f) == e && face(p, f).Ok? ==> RuleKey(face(p, f).value, e) == key(f) && key(f) !in p
  }

  lemma {:induction false} DedupWithKeysFresh(face: Builder,
                                              key: FontFile -> string, processed: seq<string>,
                                              group: seq<FontFile>, e: string)
    requires KeyedBuilder(face, key, e)
    requires forall k :: 0 <= k < |group| ==> ExtOf(group[k]) == e
    ensures var r := DedupWith(face, key, processed, group);
      KeysFresh(r.0, e, processed) && RecordsKeys(r.0, e, processed, r.1)
    decreases |group|
  {
    if group != [] {
      var init := group[..|group| - 1];
      var last := group[|group| - 1];
      assert forall k :: 0 <= k < |init| ==> init[k] == group[k];
      DedupWithKeysFresh(face, key, processed, init, e);
      var prev := DedupWith(face, key, processed, init);
      if face(prev.1, last).Ok? {
        KeysFreshSnoc(prev.0, face(prev.1, last).value, e, processed, prev.1);
      }
    }
  }

  /** The plugin's builder refuses a recorded key and builds rules carrying the key. */
  lemma CreateFontFaceKeyed(cfg: Config, e: string)
    ensures KeyedBuilder(FaceBuilder(cfg), FaceKeyOf(cfg), e)
  {
    forall p, f | ExtOf(f) == e && CreateFontFace(cfg, p, f).Ok?
      ensures RuleKey(CreateFontFace(cfg, p, f).value, e) == FaceKey(cfg, f) && FaceKey(cfg, f) !in p
    {
      RuleKeyOfFace(cfg, p, f);
    }
  }

  /** With the guard working, a group of files of one format yields rules whose keys are
      new and pairwise different. */
  lemma DedupKeysFresh(cfg: Config, processed: seq<string>, group: seq<FontFile>, e: string)
    requires forall k :: 0 <= k < |group| ==> ExtOf(group[k]) == e
    ensures KeysFresh(DedupFaces(cfg, processed, group).0, e, processed)
  {
    CreateFontFaceKeyed(cfg, e);
    DedupWithKeysFresh(FaceBuilder(cfg), FaceKeyOf(cfg), processed, group, e);
  }

  /** Hence no two rules of such a group declare the same family, weight and style. */
  lemma DedupVariantsDistinct(cfg: Config, processed: seq<string>, group: seq<FontFile>, e: string)
    requires forall k :: 0 <= k < |group| ==> ExtOf(group[k]) == e
    ensures var rs := DedupFaces(cfg, processed, group).0;
      forall i, j :: 0 <= i < j < |rs| ==> Variant(rs[i]) != Variant(rs[j])
  {
    DedupKeysFresh(cfg, processed, group, e);
  }


  /** Two files through the guarded loop: the first is recorded, and the second is
      dropped when the builder refuses it once the first one's key is recorded. */
  lemma DedupWithPair(face: Builder, key: FontFile -> string,
                      a: FontFile, b: FontFile)
    requires face([], a).Ok?
    ensures DedupWith(face, key, [], [a]).1 == [key(a)]
    ensures face([key(a)], b).Err? ==> |DedupWith(face, key, [], [a, b]).0| == 1
  {
    assert [a, b][..1] == [a];
    assert [a][..0] == [];
  }

  /** With the guard working, the second of two copies of one variant is skipped. */
  lemma DedupSkipsSecondCopy(cfg: Config, a: FontFile, b: FontFile)
    requires MappedSheet(cfg, a).Some? && MappedSheet(cfg, a) == MappedSheet(cfg, b)
    requires ExtOf(a) == ExtOf(b) && UrlBegin(ExtOf(a)).Some?
    ensures |DedupFaces(cfg, [], [a, b]).0| == 1
    ensures CreateFontFace(cfg, DedupFaces(cfg, [], [a]).1, b) == Err(AlreadyProcessed(BaseName(b.path)))
  {
    FirstCopyAccepted(cfg, a);
    SecondCopyRefused(cfg, a, b);
    DedupWithPair(FaceBuilder(cfg), FaceKeyOf(cfg), a, b);
  }

  /** A mapped file of a known type is accepted while nothing is recorded. */
  lemma FirstCopyAccepted(cfg: Config, a: FontFile)
    requires MappedSheet(cfg, a).Some? && UrlBegin(ExtOf(a)).Some?
    ensures FaceBuilder(cfg)([], a).Ok?
  {
  }

  /** Once a file's key is recorded, a file of the same variant and type is refused. */
  lemma SecondCopyRefused(cfg: Config, a: FontFile, b: FontFile)
    requires MappedSheet(cfg, a).Some? && MappedSheet(cfg, a) == MappedSheet(cfg, b)
    requires ExtOf(a) == ExtOf(b)
    ensures FaceBuilder(cfg)([FaceKeyOf(cfg)(a)], b) == Err(AlreadyProcessed(BaseName(b.path)))
  {
    var recorded := [FaceKey(cfg, a)];
    assert FaceKeyOf(cfg)(a) == FaceKey(cfg, a);
    assert ProcessedKey(MappedSheet(cfg, b).value, ExtOf(b)) in recorded;
    var r := CreateFontFace(cfg, recorded, b);
    assert r.Err? && r.error.AlreadyProcessed? && r.error.filename == BaseName(b.path);
  }
}