/** The one-off vectorisation step: every entity of both knowledge graphs
    gets an initial feature vector from a GloVe-style word-embedding file,
    looked up by the entity's name. Files are given as `Files`, a map from
    path to the lines the file holds; float parsing is the parameter
    `parse`. */
module Vectorization {
  import opened Wrappers
  import opened PyStrings
  import opened Vectors
  import Configuration

  /** Vector width the script assumes throughout (GloVe 300d). */
  const Width: nat := 300

  const DataSets: seq<string> := ["fr_en", "ja_en", "zh_en", "dbp_yg"]
  const DefaultEmbeddingFile: string := "./glove.840B.300d.txt"
  const ResourceMarker: string := "/resource/"

  /** The word-to-vector dictionary. */
  type EmbeddingDict = map<string, Vector>

  /** The text files the script reads: path to the lines of the file. */
  type Files = map<string, seq<string>>

  /** The exceptions the script can raise. */
  datatype Error =
    | InvalidDataset(dataset: string)      // ValueError on the dataset tag
    | InvalidGraphNum(graphNum: int)       // ValueError on the graph number
    | FileNotFound(path: string)           // open() on a missing file
    | MalformedNumber(line: nat)           // a vector token that is not a float
    | InhomogeneousShape(name: string)     // np.mean over unequal lengths

  predicate ValidDataset(dataset: string)
  {
    dataset in DataSets
  }

  predicate ValidGraphNum(graphNum: int)
  {
    graphNum == 1 || graphNum == 2
  }

  /** `'data/' + dataset + '/ent_ids_' + str(graph_num)`. */
  function EntIdsPath(dataset: string, graphNum: int): string
  {
    "data/" + dataset + "/ent_ids_" + IntToString(graphNum)
  }

  /** For the two valid graph numbers the script reads the same entity files
      that the configuration names. */
  lemma EntIdsPathMatchesConfig(dataset: string)
    ensures EntIdsPath(dataset, 1) == Configuration.NewConfig(dataset).e1
    ensures EntIdsPath(dataset, 2) == Configuration.NewConfig(dataset).e2
  {
    assert IntToString(1) == "1" && IntToString(2) == "2";
  }

  // ---------------------------------------------------------------------
  // Entity names

  /** Keeps only the text between the first and second `/resource/` when
      the marker occurs (`split('/resource/')[1]`). */
  function ResourceSegment(field: string): string
  {
    if Contains(field, ResourceMarker) then
      SplitCount(field, ResourceMarker);
      Split(field, ResourceMarker)[1]
    else field
  }

  /** Drops one trailing newline, if there is one. */
  function TrimNewline(s: string): (r: string)
    ensures s == r + "\n" || (r == s && (s == [] || s[|s| - 1] != '\n'))
  {
    if |s| > 0 && s[|s| - 1] == '\n' then s[..|s| - 1] else s
  }

  /** The entity name of one line of an entity-ID file: the last tab field,
      reduced to its `/resource/` segment, without its newline, with every
      underscore turned into a space. */
  function CleanName(line: string): string
  {
    ReplaceChar(TrimNewline(ResourceSegment(LastField(line, "\t"))), '_', ' ')
  }

  /** One name per line, in file order. */
  function EntNames(lines: seq<string>): seq<string>
  {
    seq(|lines|, i requires 0 <= i < |lines| => CleanName(lines[i]))
  }

  /** Without `/resource/` a field is kept whole. With it, the kept segment
      is the second piece of the field: it starts right after the first
      marker and runs to the next marker that starts there or later (or to
      the end), so it holds no marker itself. */
  lemma ResourceSegmentSpec(field: string)
    ensures !Contains(field, ResourceMarker) ==> ResourceSegment(field) == field
    ensures Contains(field, ResourceMarker) ==>
      var r := ResourceSegment(field);
      !Contains(r, ResourceMarker) &&
      exists pre :: FirstTwoPieces(field, ResourceMarker, pre, r)
  {
    if Contains(field, ResourceMarker) {
      SplitPieces(field, ResourceMarker);
      SplitSecond(field, ResourceMarker);
      var ps := Split(field, ResourceMarker);
      assert FirstTwoPieces(field, ResourceMarker, ps[0], ps[1]);
    }
  }

  /** The marker overlaps itself (it starts and ends with `/`), yet the
      kept segment starts after the FIRST marker: from `x/resource/resource/A`
      the name keeps `resource/A`, not `A`. The kept text is a parameter
      fixed by the precondition rather than a literal inside the field, which
      keeps the string equalities of the proof cheap. */
  lemma OverlappingMarkers(kept: string)
    requires kept == "resource/A"
    ensures ResourceSegment("x" + ResourceMarker + kept) == kept
  {
    var field := "x" + ResourceMarker + kept;
    assert |field| == 21 && field[0] == 'x' && field[11] == 'r';
    assert OccursAt(field, ResourceMarker, 1) by {
      assert field[1..11] == ResourceMarker;
    }
    IndexOfIsFirst(field, ResourceMarker);
    ResourceSegmentSpec(field);
    var r := ResourceSegment(field);
    var pre :| FirstTwoPieces(field, ResourceMarker, pre, r);
    assert FirstTwoPieces(field, ResourceMarker, "x", kept) by {
      assert field == "x" + ResourceMarker + kept + field[21..];
      forall j: nat | j < 1 ensures !OccursAt(field, ResourceMarker, j) {
        assert field[0] != ResourceMarker[0];
      }
      forall j: nat | 11 <= j < 21 ensures !OccursAt(field, ResourceMarker, j) {
        if j + |ResourceMarker| <= |field| {
          assert field[j] != ResourceMarker[0];
        }
      }
    }
    FirstTwoPiecesUnique(field, ResourceMarker, pre, r, "x", kept);
  }

  /** The kept segment is a piece of the field: it adds no character. */
  lemma ResourceSegmentChars(field: string)
    ensures forall c :: c in ResourceSegment(field) ==> c in field
  {
    ResourceSegmentSpec(field);
    if Contains(field, ResourceMarker) {
      var core := ResourceSegment(field);
      var pre :| FirstTwoPieces(field, ResourceMarker, pre, core);
      var e := |pre| + |ResourceMarker| + |core|;
      assert field == pre + ResourceMarker + core + field[e..];
    }
  }

  /** The name is built from the last tab field alone and never contains a
      tab or an underscore. */
  lemma CleanNameChars(line: string)
    ensures '\t' !in CleanName(line) && '_' !in CleanName(line)
  {
    var field := LastField(line, "\t");
    LastFieldIsSuffix(line, "\t");
    ContainsChar(field, '\t');
    var core := ResourceSegment(field);
    ResourceSegmentChars(field);
    var trimmed := TrimNewline(core);
    assert forall c :: c in trimmed ==> c in core;
    var name := CleanName(line);
    forall i | 0 <= i < |name| ensures name[i] != '\t' && name[i] != '_' {
      assert trimmed[i] in trimmed;
    }
  }

  /** A line that is already a bare name (no tab, no `/resource/`, no
      underscore, no trailing newline) is its own name. */
  lemma CleanNameOfBareName(line: string)
    requires '\t' !in line && '_' !in line && !Contains(line, ResourceMarker)
    requires line == [] || line[|line| - 1] != '\n'
    ensures CleanName(line) == line
  {
    ContainsChar(line, '\t');
    SplitPieces(line, "\t");
    assert LastField(line, "\t") == line;
  }

  /** The loop of `__load_ent_names`: one cleaned name per line, in file
      order. */
  method ReadNames(lines: seq<string>) returns (names: seq<string>)
    ensures names == EntNames(lines)
  {
    names := [];
    var i := 0;
    while i < |lines|
      invariant 0 <= i <= |lines|
      invariant |names| == i
      invariant forall k :: 0 <= k < i ==> names[k] == CleanName(lines[k])
    {
      names := names + [CleanName(lines[i])];
      i := i + 1;
    }
  }

  /** `__load_ent_names` as written: a bad graph number is reported by a
      ValueError that is built and dropped, so the names of whatever file
      the number selects are returned. */
  method LoadEntNames(files: Files, dataset: string, graphNum: int) returns (r: Result<seq<string>, Error>)
    ensures !ValidDataset(dataset) ==> r == Err(InvalidDataset(dataset))
    ensures ValidDataset(dataset) && EntIdsPath(dataset, graphNum) !in files ==>
      r == Err(FileNotFound(EntIdsPath(dataset, graphNum)))
    ensures ValidDataset(dataset) && EntIdsPath(dataset, graphNum) in files ==>
      r == Ok(EntNames(files[EntIdsPath(dataset, graphNum)]))
  {
    if !ValidDataset(dataset) {
      return Err(InvalidDataset(dataset));
    }
    // The graph-number check constructs InvalidGraphNum but does not raise it.
    var path := EntIdsPath(dataset, graphNum);
    if path !in files {
      return Err(FileNotFound(path));
    }
    var names := ReadNames(files[path]);
    return Ok(names);
  }

  /** `__load_ent_names` with the graph-number error raised, as evidently
      intended. */
  method LoadEntNamesChecked(files: Files, dataset: string, graphNum: int) returns (r: Result<seq<string>, Error>)
    ensures !ValidDataset(dataset) ==> r == Err(InvalidDataset(dataset))
    ensures ValidDataset(dataset) && !ValidGraphNum(graphNum) ==> r == Err(InvalidGraphNum(graphNum))
    ensures ValidDataset(dataset) && ValidGraphNum(graphNum) ==>
      r == (var path := EntIdsPath(dataset, graphNum);
            if path in files then Ok(EntNames(files[path])) else Err(FileNotFound(path)))
  {
    if !ValidDataset(dataset) {
      return Err(InvalidDataset(dataset));
    }
    if !ValidGraphNum(graphNum) {
      return Err(InvalidGraphNum(graphNum));
    }
    r := LoadEntNames(files, dataset, graphNum);
  }

  /** The as-written loader accepts graph number 3 and returns the names of
      `ent_ids_3`, where the corrected one reports the bad number. */
  method GraphThreeIsRead() returns (asWritten: Result<seq<string>, Error>, corrected: Result<seq<string>, Error>)
    ensures asWritten == Ok([])
    ensures corrected == Err(InvalidGraphNum(3))
  {
    var files: Files := map[EntIdsPath("ja_en", 3) := []];
    assert ValidDataset("ja_en");
    assert EntNames([]) == [];
    asWritten := LoadEntNames(files, "ja_en", 3);
    corrected := LoadEntNamesChecked(files, "ja_en", 3);
  }

  // ---------------------------------------------------------------------
  // The embedding file

  /** The tokens of a line split into the word part and the last (at most)
      300 tokens: `values[:-300]` and `values[-300:]`. */
  function LineParts(line: string): (r: (seq<string>, seq<string>))
    ensures r.0 + r.1 == Tokens(line)
    ensures |r.1| == if |Tokens(line)| < Width then |Tokens(line)| else Width
  {
    var t := Tokens(line);
    var cut := if |t| < Width then 0 else |t| - Width;
    (t[..cut], t[cut..])
  }

  /** The dictionary key of a line: its word tokens joined with no
      separator. */
  function LineKey(line: string): string
  {
    Concat(LineParts(line).0)
  }

  /** Parses every token, failing if any one fails. */
  function ParseAll(tokens: seq<string>, parse: string -> Option<real>): (r: Option<Vector>)
    ensures r.Some? <==> forall k :: 0 <= k < |tokens| ==> parse(tokens[k]).Some?
    ensures r.Some? ==> |r.value| == |tokens|
    ensures r.Some? ==> forall k :: 0 <= k < |tokens| ==> r.value[k] == parse(tokens[k]).value
  {
    if tokens == [] then Some([])
    else
      match (parse(tokens[0]), ParseAll(tokens[1..], parse))
      case (Some(x), Some(xs)) => Some([x] + xs)
      case _ => None
  }

  /** The vector of a line: its last (at most) 300 tokens as numbers. */
  function LineVector(line: string, parse: string -> Option<real>): Option<Vector>
  {
    ParseAll(LineParts(line).1, parse)
  }

  /** What one line of the embedding file contributes: its key and, when
      every number parses, its vector. */
  datatype ParsedLine = ParsedLine(key: string, vector: Option<Vector>)

  function ParseLine(line: string, parse: string -> Option<real>): ParsedLine
  {
    ParsedLine(LineKey(line), LineVector(line, parse))
  }

  function ParseLines(lines: seq<string>, parse: string -> Option<real>): (r: seq<ParsedLine>)
    ensures |r| == |lines|
  {
    seq(|lines|, i requires 0 <= i < |lines| => ParseLine(lines[i], parse))
  }

  /** The dictionary built from the parsed lines in order, each line
      overwriting the entry of its key; the first malformed line aborts. */
  function Build(entries: seq<ParsedLine>): Result<EmbeddingDict, Error>
    decreases |entries|
  {
    if entries == [] then Ok(map[])
    else
      var n := |entries| - 1;
      match Build(entries[..n])
      case Err(e) => Err(e)
      case Ok(d) =>
        match entries[n].vector
        case None => Err(MalformedNumber(n))
        case Some(v) => Ok(d[entries[n].key := v])
  }

  /** `__load_embedding`; `verbose` only selects a progress display and
      does not enter the result. */
  method LoadEmbedding(files: Files, parse: string -> Option<real>,
                       embeddingFilename: string := DefaultEmbeddingFile, verbose: bool := true)
    returns (r: Result<EmbeddingDict, Error>)
    ensures embeddingFilename !in files ==> r == Err(FileNotFound(embeddingFilename))
    ensures embeddingFilename in files ==> r == Build(ParseLines(files[embeddingFilename], parse))
  {
    if embeddingFilename !in files {
      return Err(FileNotFound(embeddingFilename));
    }
    var lines := files[embeddingFilename];
    ghost var entries := ParseLines(lines, parse);
    var dict: EmbeddingDict := map[];
    var i := 0;
    while i < |lines|
      invariant 0 <= i <= |lines|
      invariant Build(entries[..i]) == Ok(dict)
    {
      assert entries[..i + 1][..i] == entries[..i];
      var key := LineKey(lines[i]);
      var vec := LineVector(lines[i], parse);
      assert entries[i] == ParsedLine(key, vec);
      if vec.None? {
        BuildErrorPersists(entries, i + 1);
        return Err(MalformedNumber(i));
      }
      dict := dict[key := vec.value];
      i := i + 1;
    }
    assert entries[..i] == entries;
    return Ok(dict);
  }

  /** Once a prefix of the file has failed, the whole file fails the same
      way. */
  lemma {:induction false} BuildErrorPersists(entries: seq<ParsedLine>, i: nat)
    requires i <= |entries|
    requires Build(entries[..i]).Err?
    ensures Build(entries) == Build(entries[..i])
    decreases |entries|
  {
    if i < |entries| {
      var n := |entries| - 1;
      assert entries[..n][..i] == entries[..i];
      BuildErrorPersists(entries[..n], i);
    } else {
      assert entries[..i] == entries;
    }
  }

  /** Loading succeeds exactly when every line's vector parses; otherwise
      the error names the first line that does not. */
  lemma {:induction false} BuildOutcome(entries: seq<ParsedLine>)
    ensures Build(entries).Ok? <==> forall i :: 0 <= i < |entries| ==> entries[i].vector.Some?
    ensures Build(entries).Err? ==>
      exists i :: 0 <= i < |entries| && Build(entries) == Err(MalformedNumber(i)) &&
        entries[i].vector.None? &&
        forall j :: 0 <= j < i ==> entries[j].vector.Some?
    decreases |entries|
  {
    if entries != [] {
      var n := |entries| - 1;
      var init := entries[..n];
      BuildOutcome(init);
      assert forall i :: 0 <= i < n ==> init[i] == entries[i];
    }
  }

  /** The keys are exactly the keys of the lines. */
  lemma {:induction false} BuildKeys(entries: seq<ParsedLine>)
    requires Build(entries).Ok?
    ensures forall k :: k in Build(entries).value <==>
      exists i :: 0 <= i < |entries| && entries[i].key == k
    decreases |entries|
  {
    if entries != [] {
      var n := |entries| - 1;
      var init := entries[..n];
      BuildKeys(init);
      assert forall i :: 0 <= i < n ==> init[i] == entries[i];
    }
  }

  /** Last write wins: a key maps to the vector of the last line that has
      that key. */
  lemma {:induction false} LastWriteWins(entries: seq<ParsedLine>, i: nat)
    requires Build(entries).Ok?
    requires i < |entries|
    requires forall j :: i < j < |entries| ==> entries[j].key != entries[i].key
    ensures entries[i].vector.Some?
    ensures entries[i].key in Build(entries).value
    ensures Build(entries).value[entries[i].key] == entries[i].vector.value
    decreases |entries|
  {
    var n := |entries| - 1;
    if i < n {
      var init := entries[..n];
      assert forall j :: i < j < n ==> init[j] == entries[j];
      LastWriteWins(init, i);
    }
  }

  /** Every vector in the dictionary is the vector of some line. */
  lemma {:induction false} BuildValues(entries: seq<ParsedLine>)
    requires Build(entries).Ok?
    ensures forall k :: k in Build(entries).value ==>
      exists i :: 0 <= i < |entries| && entries[i].vector == Some(Build(entries).value[k])
    decreases |entries|
  {
    if entries != [] {
      var n := |entries| - 1;
      var init := entries[..n];
      BuildValues(init);
      assert forall i :: 0 <= i < n ==> init[i] == entries[i];
    }
  }

  /** A line with at least 300 tokens yields a 300-long vector when it
      parses, so such a file gives a dictionary of 300-long vectors. */
  lemma LoadedVectorsHaveWidth(lines: seq<string>, parse: string -> Option<real>)
    requires Build(ParseLines(lines, parse)).Ok?
    requires forall i :: 0 <= i < |lines| ==> |Tokens(lines[i])| >= Width
    ensures forall k :: k in Build(ParseLines(lines, parse)).value ==>
      |Build(ParseLines(lines, parse)).value[k]| == Width
  {
    var entries := ParseLines(lines, parse);
    BuildValues(entries);
    forall i | 0 <= i < |lines| && entries[i].vector.Some?
      ensures |entries[i].vector.value| == Width
    {
      assert entries[i].vector == ParseAll(LineParts(lines[i]).1, parse);
    }
  }

  /** Keys are joined tokens, so no key of a loaded dictionary contains
      whitespace. */
  lemma KeysHaveNoSpace(lines: seq<string>, parse: string -> Option<real>)
    requires Build(ParseLines(lines, parse)).Ok?
    ensures forall k :: k in Build(ParseLines(lines, parse)).value ==> HasNoSpace(k)
  {
    var entries := ParseLines(lines, parse);
    BuildKeys(entries);
    forall i | 0 <= i < |lines| ensures HasNoSpace(entries[i].key) {
      var parts := LineParts(lines[i]);
      assert forall k :: 0 <= k < |parts.0| ==> parts.0[k] == Tokens(lines[i])[k];
      ConcatHasNoSpace(parts.0);
    }
  }

  /** So a multi-word entity name is never an exact hit in a loaded
      dictionary: its vector always comes from the per-word average. */
  lemma SpacedNameIsNeverAKey(lines: seq<string>, parse: string -> Option<real>, name: string)
    requires Build(ParseLines(lines, parse)).Ok?
    requires Contains(name, " ")
    ensures name !in Build(ParseLines(lines, parse)).value
  {
    KeysHaveNoSpace(lines, parse);
    ContainsChar(name, ' ');
    assert !HasNoSpace(name);
  }

  // ---------------------------------------------------------------------
  // Embedding one entity

  /** The vector of a single word: its entry, or 300 zeros. */
  function Lookup(word: string, dict: EmbeddingDict): Vector
  {
    if word in dict then dict[word] else Zeros(Width)
  }

  /** `__embed_entity`: an exact hit, else the mean over the space-separated
      pieces, else 300 zeros. */
  function EmbedEntity(name: string, dict: EmbeddingDict): (r: Result<Vector, Error>)
    ensures name in dict ==> r == Ok(dict[name])
    ensures !Contains(name, " ") ==> r == Ok(Lookup(name, dict))
    decreases if Contains(name, " ") then 1 else 0
  {
    if name in dict then Ok(dict[name])
    else if Contains(name, " ") then
      var pieces := Split(name, " ");
      SplitPieces(name, " ");
      var vs := seq(|pieces|, i requires 0 <= i < |pieces| => EmbedEntity(pieces[i], dict).value);
      match Mean(vs)
      case None => Err(InhomogeneousShape(name))
      case Some(v) => Ok(v)
    else Ok(Zeros(Width))
  }

  /** The recursion is one level deep: a missed multi-word name (at least
      two pieces) gets the mean of its pieces' plain lookups. */
  lemma MissedNameAveragesPieces(name: string, dict: EmbeddingDict)
    requires name !in dict && Contains(name, " ")
    ensures |Split(name, " ")| >= 2
    ensures var ps := Split(name, " ");
      var m := Mean(seq(|ps|, i requires 0 <= i < |ps| => Lookup(ps[i], dict)));
      EmbedEntity(name, dict) == if m.Some? then Ok(m.value) else Err(InhomogeneousShape(name))
  {
    var ps := Split(name, " ");
    SplitPieces(name, " ");
    var vs := seq(|ps|, i requires 0 <= i < |ps| => EmbedEntity(ps[i], dict).value);
    var ls := seq(|ps|, i requires 0 <= i < |ps| => Lookup(ps[i], dict));
    assert vs == ls;
  }

  /** When every dictionary vector has 300 components, every entity gets a
      vector of 300 components and no error. */
  lemma EmbedEntityWidth(name: string, dict: EmbeddingDict)
    requires forall w :: w in dict ==> |dict[w]| == Width
    ensures EmbedEntity(name, dict).Ok? && |EmbedEntity(name, dict).value| == Width
  {
    if name !in dict && Contains(name, " ") {
      MissedNameAveragesPieces(name, dict);
      var ps := Split(name, " ");
      var ls := seq(|ps|, i requires 0 <= i < |ps| => Lookup(ps[i], dict));
      assert AllWidth(ls, |ls[0]|);
    }
  }

  /** A name none of whose pieces is known gets the zero vector. */
  lemma UnknownNameIsZero(name: string, dict: EmbeddingDict)
    requires name !in dict
    requires forall p :: p in Split(name, " ") ==> p !in dict
    ensures EmbedEntity(name, dict) == Ok(Zeros(Width))
  {
    if Contains(name, " ") {
      MissedNameAveragesPieces(name, dict);
      var ps := Split(name, " ");
      var ls := seq(|ps|, i requires 0 <= i < |ps| => Lookup(ps[i], dict));
      assert forall i :: 0 <= i < |ps| ==> ps[i] in Split(name, " ");
      MeanOfCopies(ls, Zeros(Width));
    }
  }

  /** A two-word name that is not itself a key, made of two known words,
      gets the componentwise average of the two words' vectors. */
  lemma TwoKnownWords(a: string, b: string, dict: EmbeddingDict)
    requires ' ' !in a && ' ' !in b
    requires a in dict && b in dict && |dict[a]| == |dict[b]|
    requires a + " " + b !in dict
    ensures EmbedEntity(a + " " + b, dict) ==
      Ok(seq(|dict[a]|, j requires 0 <= j < |dict[a]| => (dict[a][j] + dict[b][j]) / 2.0))
  {
    var name := a + " " + b;
    assert OccursAt(name, " ", |a|);
    IndexOfIsFirst(name, " ");
    SplitTwo(a, b, ' ');
    MissedNameAveragesPieces(name, dict);
    var ls := seq(2, i requires 0 <= i < 2 => Lookup([a, b][i], dict));
    assert ls == [dict[a], dict[b]];
    MeanOfPair(dict[a], dict[b]);
  }

  // ---------------------------------------------------------------------
  // Embedding a graph and storing both

  /** The vectors of a list of names, stopping at the first error. */
  function EmbedAll(names: seq<string>, dict: EmbeddingDict): Result<seq<Vector>, Error>
    decreases |names|
  {
    if names == [] then Ok([])
    else
      var n := |names| - 1;
      match EmbedAll(names[..n], dict)
      case Err(e) => Err(e)
      case Ok(vs) =>
        match EmbedEntity(names[n], dict)
        case Err(e) => Err(e)
        case Ok(v) => Ok(vs + [v])
  }

  lemma {:induction false} EmbedAllErrorPersists(names: seq<string>, dict: EmbeddingDict, i: nat)
    requires i <= |names|
    requires EmbedAll(names[..i], dict).Err?
    ensures EmbedAll(names, dict) == EmbedAll(names[..i], dict)
    decreases |names|
  {
    if i < |names| {
      var n := |names| - 1;
      assert names[..n][..i] == names[..i];
      EmbedAllErrorPersists(names[..n], dict, i);
    } else {
      assert names[..i] == names;
    }
  }

  /** One vector per name, in the order of the names, each the entity's
      own vector; an error exactly when some entity fails. */
  lemma {:induction false} EmbedAllSpec(names: seq<string>, dict: EmbeddingDict)
    ensures EmbedAll(names, dict).Ok? <==>
      forall i :: 0 <= i < |names| ==> EmbedEntity(names[i], dict).Ok?
    ensures EmbedAll(names, dict).Ok? ==>
      |EmbedAll(names, dict).value| == |names| &&
      forall i :: 0 <= i < |names| ==> EmbedEntity(names[i], dict) == Ok(EmbedAll(names, dict).value[i])
    decreases |names|
  {
    if names != [] {
      var n := |names| - 1;
      var init := names[..n];
      EmbedAllSpec(init, dict);
      assert forall i :: 0 <= i < n ==> init[i] == names[i];
    }
  }

  /** The vectors of the entity file a path names. */
  function GraphVectors(files: Files, path: string, dict: EmbeddingDict): Result<seq<Vector>, Error>
  {
    if path in files then EmbedAll(EntNames(files[path]), dict) else Err(FileNotFound(path))
  }

  /** The loop of `__apply_embedding`: each name's vector, appended in
      order, stopping at the first entity whose pieces disagree in shape. */
  method EmbedNames(names: seq<string>, dict: EmbeddingDict) returns (r: Result<seq<Vector>, Error>)
    ensures r == EmbedAll(names, dict)
  {
    var vectors: seq<Vector> := [];
    var i := 0;
    while i < |names|
      invariant 0 <= i <= |names|
      invariant EmbedAll(names[..i], dict) == Ok(vectors)
    {
      assert names[..i + 1][..i] == names[..i];
      var v := EmbedEntity(names[i], dict);
      if v.Err? {
        EmbedAllErrorPersists(names, dict, i + 1);
        return Err(v.error);
      }
      vectors := vectors + [v.value];
      i := i + 1;
    }
    assert names[..i] == names;
    return Ok(vectors);
  }

  /** `__apply_embedding`: both checks raise here, then one vector per
      entity name of the selected graph. */
  method ApplyEmbedding(files: Files, dataset: string, dict: EmbeddingDict, graphNum: int)
    returns (r: Result<seq<Vector>, Error>)
    ensures !ValidDataset(dataset) ==> r == Err(InvalidDataset(dataset))
    ensures ValidDataset(dataset) && !ValidGraphNum(graphNum) ==> r == Err(InvalidGraphNum(graphNum))
    ensures ValidDataset(dataset) && ValidGraphNum(graphNum) ==>
      r == GraphVectors(files, EntIdsPath(dataset, graphNum), dict)
  {
    if !ValidDataset(dataset) {
      return Err(InvalidDataset(dataset));
    }
    if !ValidGraphNum(graphNum) {
      return Err(InvalidGraphNum(graphNum));
    }
    var loaded := LoadEntNamesChecked(files, dataset, graphNum);
    if loaded.Err? {
      return Err(loaded.error);
    }
    r := EmbedNames(loaded.value, dict);
  }

  /** The output file: the dataset text before its first underscore,
      followed by `_vectorList.json`, in the dataset's directory. */
  function OutputPath(dataset: string): string
  {
    "data/" + dataset + "/" + Split(dataset, "_")[0] + "_vectorList.json"
  }

  /** The file-name prefix is the dataset tag up to its first underscore:
      it holds no underscore and the tag is the prefix alone or the prefix,
      an underscore and the rest. */
  lemma OutputPathPrefix(dataset: string)
    ensures var p := Split(dataset, "_")[0];
      OutputPath(dataset) == "data/" + dataset + "/" + p + "_vectorList.json" &&
      '_' !in p && (dataset == p || (|p| < |dataset| && dataset[..|p| + 1] == p + "_"))
  {
    var p := Split(dataset, "_")[0];
    SplitFirst(dataset, "_");
    ContainsChar(p, '_');
  }

  /** `__store_embedding`: the vectors of graph 2 followed by those of
      graph 1, and the file they are written to. */
  method StoreEmbedding(files: Files, dataset: string, dict: EmbeddingDict)
    returns (r: Result<(string, seq<Vector>), Error>)
    ensures !ValidDataset(dataset) ==> r == Err(InvalidDataset(dataset))
    ensures ValidDataset(dataset) ==>
      var g1 := GraphVectors(files, EntIdsPath(dataset, 1), dict);
      var g2 := GraphVectors(files, EntIdsPath(dataset, 2), dict);
      r == if g1.Err? then Err(g1.error)
           else if g2.Err? then Err(g2.error)
           else Ok((OutputPath(dataset), g2.value + g1.value))
  {
    var first := ApplyEmbedding(files, dataset, dict, 1);
    if first.Err? {
      return Err(first.error);
    }
    var second := ApplyEmbedding(files, dataset, dict, 2);
    if second.Err? {
      return Err(second.error);
    }
    var path := OutputPath(dataset);
    return Ok((path, second.value + first.value));
  }

  /** With 300-long dictionary vectors an existing entity file yields one
      300-long vector per name, in file order. */
  lemma GraphRows(files: Files, path: string, dict: EmbeddingDict)
    requires path in files
    requires forall w :: w in dict ==> |dict[w]| == Width
    ensures var names := EntNames(files[path]);
      var g := GraphVectors(files, path, dict);
      g.Ok? && |g.value| == |names| &&
      (forall i :: 0 <= i < |names| ==> EmbedEntity(names[i], dict) == Ok(g.value[i])) &&
      (forall i :: 0 <= i < |names| ==> |g.value[i]| == Width)
  {
    var names := EntNames(files[path]);
    forall i | 0 <= i < |names|
      ensures EmbedEntity(names[i], dict).Ok? && |EmbedEntity(names[i], dict).value| == Width
    {
      EmbedEntityWidth(names[i], dict);
    }
    EmbedAllSpec(names, dict);
  }

  /** The stored rows: the vectors of graph 2 first, then those of
      graph 1, one 300-long row per entity of either graph. */
  lemma StoredLayout(files: Files, dataset: string, dict: EmbeddingDict)
    requires EntIdsPath(dataset, 1) in files && EntIdsPath(dataset, 2) in files
    requires forall w :: w in dict ==> |dict[w]| == Width
    ensures var g1 := GraphVectors(files, EntIdsPath(dataset, 1), dict);
      var g2 := GraphVectors(files, EntIdsPath(dataset, 2), dict);
      g1.Ok? && g2.Ok? &&
      var rows := g2.value + g1.value;
      |rows| == |EntNames(files[EntIdsPath(dataset, 2)])| + |EntNames(files[EntIdsPath(dataset, 1)])| &&
      rows[..|g2.value|] == g2.value && rows[|g2.value|..] == g1.value &&
      (forall i :: 0 <= i < |rows| ==> |rows[i]| == Width)
  {
    GraphRows(files, EntIdsPath(dataset, 1), dict);
    GraphRows(files, EntIdsPath(dataset, 2), dict);
    var g1 := GraphVectors(files, EntIdsPath(dataset, 1), dict).value;
    var g2 := GraphVectors(files, EntIdsPath(dataset, 2), dict).value;
    var rows := g2 + g1;
    assert rows[..|g2|] == g2 && rows[|g2|..] == g1;
    forall i | 0 <= i < |rows| ensures |rows[i]| == Width {
      if i >= |g2| {
        assert rows[i] == g1[i - |g2|];
      }
    }
  }
}
