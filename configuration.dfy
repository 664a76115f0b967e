/** The experiment configuration: the fixed hyper-parameters of the model
    and the five dataset paths derived from a language-pair tag. */
module Configuration {

  datatype Config = Config(
    language: string,
    epochs: int,
    e1: string,   // entity IDs of graph 1
    e2: string,   // entity IDs of graph 2
    ill: string,  // inter-lingual alignment links
    kg1: string,  // relation triples of graph 1
    kg2: string)  // relation triples of graph 2
  {
    /** Embedding dimension. */
    static const Dim: nat := 300
    static const Alpha: real := 0.1
    static const Beta: real := 0.3
    /** Margin of the ranking loss. */
    static const Gamma: real := 1.0
    /** Negative samples drawn for each positive pair. */
    static const K: nat := 125
    /** Tenths of the alignment links used for training. */
    static const Seed: nat := 3
  }

  /** The directory holding every file of one dataset. */
  function DataDir(language: string): string
  {
    "data/" + language + "/"
  }

  /** The constructor: stores the tag and the epoch count as given, with no
      validation of either, and derives the five paths from the tag. */
  function NewConfig(language: string := "ja_en", epochs: int := 600): (c: Config)
    ensures c.language == language && c.epochs == epochs
    ensures c.e1 == DataDir(language) + "ent_ids_1"
    ensures c.e2 == DataDir(language) + "ent_ids_2"
    ensures c.ill == DataDir(language) + "ref_ent_ids"
    ensures c.kg1 == DataDir(language) + "triples_1"
    ensures c.kg2 == DataDir(language) + "triples_2"
  {
    Config(language, epochs,
      "data/" + language + "/ent_ids_1",
      "data/" + language + "/ent_ids_2",
      "data/" + language + "/ref_ent_ids",
      "data/" + language + "/triples_1",
      "data/" + language + "/triples_2")
  }

  /** Called with no arguments, the constructor selects the Japanese-English
      dataset and 600 epochs. */
  lemma DefaultConfig()
    ensures NewConfig().language == "ja_en" && NewConfig().epochs == 600
    ensures NewConfig().e1 == "data/ja_en/ent_ids_1"
    ensures NewConfig().e2 == "data/ja_en/ent_ids_2"
    ensures NewConfig().ill == "data/ja_en/ref_ent_ids"
    ensures NewConfig().kg1 == "data/ja_en/triples_1"
    ensures NewConfig().kg2 == "data/ja_en/triples_2"
  {
    var d := DataDir("ja_en");
    assert d == "data/ja_en/";
    assert d + "ent_ids_1" == "data/ja_en/ent_ids_1";
    assert d + "ent_ids_2" == "data/ja_en/ent_ids_2";
    assert d + "ref_ent_ids" == "data/ja_en/ref_ent_ids";
    assert d + "triples_1" == "data/ja_en/triples_1";
    assert d + "triples_2" == "data/ja_en/triples_2";
  }

  /** Equal strings with a common prefix have equal remainders. */
  lemma PrefixCancel(p: string, a: string, b: string)
    requires p + a == p + b
    ensures a == b
  {
    assert a == (p + a)[|p|..];
    assert b == (p + b)[|p|..];
  }

  /** Different file names in one dataset directory are different paths. */
  lemma DistinctInDir(dir: string, a: string, b: string)
    requires a != b
    ensures dir + a != dir + b
  {
    if dir + a == dir + b {
      PrefixCancel(dir, a, b);
    }
  }

  /** The five paths of one configuration name five different files, for
      every language tag. */
  lemma PathsDistinct(language: string, epochs: int)
    ensures var c := NewConfig(language, epochs);
      c.e1 != c.e2 && c.e1 != c.ill && c.e1 != c.kg1 && c.e1 != c.kg2 &&
      c.e2 != c.ill && c.e2 != c.kg1 && c.e2 != c.kg2 &&
      c.ill != c.kg1 && c.ill != c.kg2 &&
      c.kg1 != c.kg2
  {
    var d := DataDir(language);
    var s := ["ent_ids_1", "ent_ids_2", "ref_ent_ids", "triples_1", "triples_2"];
    assert s[0][8] != s[1][8] && s[3][8] != s[4][8];
    assert |s[0]| != |s[2]| && |s[1]| != |s[2]| && |s[2]| != |s[3]| && |s[2]| != |s[4]|;
    assert s[0][0] != s[3][0] && s[0][0] != s[4][0] && s[1][0] != s[3][0] && s[1][0] != s[4][0];
    forall i, j | 0 <= i < j < 5 ensures d + s[i] != d + s[j] {
      DistinctInDir(d, s[i], s[j]);
    }
  }

  /** A path determines the language tag it was built from: two
      configurations with the same graph-1 entity file have the same tag. */
  lemma PathDeterminesLanguage(a: string, b: string)
    ensures NewConfig(a).e1 == NewConfig(b).e1 ==> a == b
  {
    var sfx := "/ent_ids_1";
    if NewConfig(a).e1 == NewConfig(b).e1 {
      assert NewConfig(a).e1 == "data/" + (a + sfx);
      assert NewConfig(b).e1 == "data/" + (b + sfx);
      PrefixCancel("data/", a + sfx, b + sfx);
      assert a == (a + sfx)[..|a + sfx| - |sfx|];
      assert b == (b + sfx)[..|b + sfx| - |sfx|];
    }
  }
}
