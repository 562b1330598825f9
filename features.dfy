/**
 * The hand-written feature logic of `src/model_svm.py`: the target-presence
 * feature of `TargetVectorizer`, the token prefixing of `SLO_WordAnalyzer`,
 * and the order in which `get_model` combines the feature blocks.
 */
module ModelSvm {
  import opened Wrappers
  import opened Text
  import opened ModelUtilities

  /** `prefix + t` for every `t` (`'#'`, `t_` or `p_`). */
  function Prefixed(prefix: string, ws: seq<string>): (r: seq<string>)
    ensures |r| == |ws| && forall k :: 0 <= k < |ws| ==> r[k] == prefix + ws[k]
  {
    seq(|ws|, k requires 0 <= k < |ws| => prefix + ws[k])
  }

  /** Every string lowercased. */
  function LowerAll(ws: seq<string>): (r: seq<string>)
    ensures |r| == |ws| && forall k :: 0 <= k < |ws| ==> r[k] == Lower(ws[k])
  {
    seq(|ws|, k requires 0 <= k < |ws| => Lower(ws[k]))
  }

  /** A tweet mentions the target when one of its whitespace tokens, lowercased, is one of the target's forms. */
  ghost predicate TargetPresent(targets: seq<string>, tweet: string) {
    exists k :: 0 <= k < |Words(tweet)| && Lower(Words(tweet)[k]) in targets
  }

  /**
   * The inner loop of `transform`: scan the tweet's tokens in order and stop
   * at the first whose lowercase form is one of the target's forms.
   */
  method Mentions(targets: seq<string>, words: seq<string>) returns (found: bool)
    ensures found <==> exists k :: 0 <= k < |words| && Lower(words[k]) in targets
  {
    found := false;
    var j := 0;
    while j < |words|
      invariant 0 <= j <= |words|
      invariant forall k :: 0 <= k < j ==> Lower(words[k]) !in targets
    {
      if Lower(words[j]) in targets {
        found := true;
        break;
      }
      j := j + 1;
    }
  }

  /** `TargetVectorizer`: its only state is the profile flag given at construction. */
  datatype TargetVectorizer = TargetVectorizer(profile: bool) {

    /** `get_feature_names`: the one column is called `target`. */
    function FeatureNames(): seq<string> {
      ["target"]
    }

    /** `fit` learns nothing and returns the vectorizer itself. */
    function Fit(tweets: seq<string>): TargetVectorizer {
      this
    }

    /**
     * `expand_target_words`: the lowercased words of the target, followed
     * by the same words prefixed with `#`.
     */
    function ExpandTargetWords(target: string): (r: seq<string>)
      ensures |r| == 2 * |Words(target)|
      ensures forall k :: 0 <= k < |Words(target)| ==>
        r[k] == Lower(Words(target)[k]) && r[|Words(target)| + k] == "#" + Lower(Words(target)[k])
    {
      var targets := LowerAll(Words(target));
      targets + Prefixed("#", targets)
    }

    /** The entry `transform` computes for one record that unpacks. */
    ghost function Presence(v: XValue): int {
      if TargetPresent(ExpandTargetWords(v.target), v.tweet) then 1 else 0
    }

    /** The record unpacks and its entry is its presence flag. */
    ghost predicate Decoded(x: string, e: int) {
      SplitXValue(x, profile).Ok? && e == Presence(SplitXValue(x, profile).value)
    }

    /**
     * `transform`: one 0/1 entry per record, 1 exactly when the tweet field
     * mentions a form of the record's own target; the profile field is never
     * scanned. A record that does not unpack raises `ValueError`.
     */
    method Transform(xValues: seq<string>) returns (r: Result<seq<int>>)
      ensures r.Ok? <==> forall i :: 0 <= i < |xValues| ==> SplitXValue(xValues[i], profile).Ok?
      ensures r.Err? ==> r.error.ValueError?
      ensures r.Ok? ==>
        |r.value| == |xValues| &&
        forall i :: 0 <= i < |xValues| ==> r.value[i] == Presence(SplitXValue(xValues[i], profile).value)
    {
      var presences := seq(|xValues|, _ => 0);
      for i := 0 to |xValues|
        invariant |presences| == |xValues|
        invariant forall k :: 0 <= k < i ==> Decoded(xValues[k], presences[k])
        invariant forall k :: i <= k < |xValues| ==> presences[k] == 0
      {
        var split := SplitXValue(xValues[i], profile);
        if split.Err? {
          return Err(split.error);
        }
        var found := Mentions(ExpandTargetWords(split.value.target), Words(split.value.tweet));
        if found {
          presences := presences[i := 1];
        }
        assert Decoded(xValues[i], presences[i]);
      }
      return Ok(presences);
    }
  }

  /** Every form in the expansion is already lowercase, so the tweet's token is lowercased before the lookup and nothing else. */
  lemma ExpansionLowercase(v: TargetVectorizer, target: string)
    ensures forall e :: e in v.ExpandTargetWords(target) ==> Lower(e) == e
  {
    var ws := Words(target);
    var r := v.ExpandTargetWords(target);
    forall e | e in r
      ensures Lower(e) == e
    {
      var k :| 0 <= k < |r| && r[k] == e;
      if k < |ws| {
        LowerIdempotent(ws[k]);
      } else {
        LowerIdempotent(ws[k - |ws|]);
        assert e == "#" + Lower(ws[k - |ws|]);
        assert Lower(e) == e;
      }
    }
  }

  /** Each word of the target is recognised in the tweet, bare or as a hashtag, in any letter case. */
  lemma TargetWordRecognised(v: TargetVectorizer, target: string, tweet: string, k: nat, j: nat)
    requires k < |Words(target)| && j < |Words(tweet)|
    requires Lower(Words(tweet)[j]) == Lower(Words(target)[k])
      || Lower(Words(tweet)[j]) == "#" + Lower(Words(target)[k])
    ensures TargetPresent(v.ExpandTargetWords(target), tweet)
  {
    var r := v.ExpandTargetWords(target);
    if Lower(Words(tweet)[j]) == Lower(Words(target)[k]) {
      assert r[k] == Lower(Words(tweet)[j]);
    } else {
      assert r[|Words(target)| + k] == Lower(Words(tweet)[j]);
    }
  }

  /**
   * The tokens of a record with profile: the target's tokens prefixed `t_`,
   * the tweet's tokens as they are, the profile's tokens prefixed `p_`.
   */
  ghost predicate FieldTokens(v: XValue, ws: seq<string>) {
    var a, b, c := |Words(v.target)|, |Words(v.tweet)|, |Words(v.profile)|;
    |ws| == a + b + c
    && (forall k :: 0 <= k < a ==> ws[k] == "t_" + Words(v.target)[k])
    && ws[a..a + b] == Words(v.tweet)
    && (forall k :: 0 <= k < c ==> ws[a + b + k] == "p_" + Words(v.profile)[k])
  }

  /** `SLO_WordAnalyzer`: the token list the word n-gram counter is given. */
  datatype WordAnalyzer = WordAnalyzer(profile: bool) {

    /**
     * `__call__`: with profile, the target's tokens prefixed `t_`, then the
     * tweet's tokens, then the profile's tokens prefixed `p_` (a record that
     * does not unpack raises `ValueError`); without profile, the whitespace
     * tokens of the whole record.
     */
    function Analyze(doc: string): (r: Result<seq<string>>)
      ensures !profile ==> r == Ok(Words(doc))
      ensures profile ==> (r.Ok? <==> SplitXValue(doc, true).Ok?)
      ensures r.Err? ==> r.error.ValueError?
      ensures profile && r.Ok? ==> SplitXValue(doc, true).Ok? && FieldTokens(SplitXValue(doc, true).value, r.value)
    {
      if profile then
        match SplitXValue(doc, true)
        case Err(e) => Err(e)
        case Ok(v) => Ok(Prefixed("t_", Words(v.target)) + Words(v.tweet) + Prefixed("p_", Words(v.profile)))
      else
        Ok(Words(doc))
    }
  }

  /**
   * On a record encoded with the same profile flag, the analyzer sees the
   * company's and tweet's tokens and, with profile, the profile's: prefixed
   * with profile, while without profile the company's tokens are
   * indistinguishable from the tweet's.
   */
  lemma AnalyzeEncodedRow(row: Row, profile: bool, H: Hashtags)
    requires "company" in row && "tweet_norm" in row && (profile ==> "profile_norm" in row)
    requires '\t' !in row["company"] && '\t' !in row["tweet_norm"]
    requires profile ==> '\t' !in row["profile_norm"]
    ensures EncodeX(row, false, profile, H).Ok?
    ensures profile ==>
      WordAnalyzer(profile).Analyze(EncodeX(row, false, profile, H).value)
      == Ok(Prefixed("t_", Words(row["company"])) + Words(row["tweet_norm"]) + Prefixed("p_", Words(row["profile_norm"])))
    ensures !profile ==>
      WordAnalyzer(profile).Analyze(EncodeX(row, false, profile, H).value)
      == Ok(Words(row["company"]) + Words(row["tweet_norm"]))
  {
    SplitGetXRoundTrip(row, profile, H);
    if !profile {
      EncodeXPlain(row, profile, H);
      var c, t := row["company"], row["tweet_norm"];
      assert c + "\t" + t == c + ['\t'] + t;
      WordsSeparated(c, '\t', t);
    }
  }

  /**
   * The feature extractors `get_model` combines, each with its settings. The
   * word block's n-gram range is not recorded: the library applies it only
   * to its built-in analyzers, never to a callable one like this.
   */
  datatype FeatureBlock =
    | WordNgram(analyzer: WordAnalyzer, binary: bool, lowercase: bool)
    | CharNgram(binary: bool, lowercase: bool, minN: nat, maxN: nat)
    | TargetPresence(vectorizer: TargetVectorizer)
    | Embedding(vectorsPath: string, profile: bool)

  /** A linear SVM with penalty `c` over the union of named feature blocks. */
  datatype SvmModel = SvmModel(features: seq<(string, FeatureBlock)>, c: real)

  /** Whether a block decodes its records with the given profile flag (blocks that never decode agree trivially). */
  predicate Decodes(b: FeatureBlock, profile: bool) {
    match b
    case WordNgram(a, _, _) => a.profile == profile
    case CharNgram(_, _, _, _) => true
    case TargetPresence(v) => v.profile == profile
    case Embedding(_, p) => p == profile
  }

  /**
   * `get_model`: word features from the analyzer, character 2- to 5-grams,
   * the target-presence column and the embeddings, in that order, binary and
   * case-sensitive counts, every record-decoding block built with the same
   * profile flag, under a linear SVM with `C = 3.0`.
   */
  function GetModel(vectorsPath: string, profile: bool): (m: SvmModel)
    ensures |m.features| == 4
    ensures forall k :: 0 <= k < 4 ==> m.features[k].0 == ["ngram_w", "ngram_c", "target", "embedding"][k]
    ensures forall k :: 0 <= k < 4 ==> Decodes(m.features[k].1, profile)
    ensures m.features[0].1.WordNgram? && m.features[0].1.binary && !m.features[0].1.lowercase
    ensures m.features[1].1 == CharNgram(true, false, 2, 5)
    ensures m.features[2].1.TargetPresence?
    ensures m.features[3].1.Embedding? && m.features[3].1.vectorsPath == vectorsPath
    ensures m.c == 3.0
  {
    SvmModel([
      ("ngram_w", WordNgram(WordAnalyzer(profile), true, false)),
      ("ngram_c", CharNgram(true, false, 2, 5)),
      ("target", TargetPresence(TargetVectorizer(profile))),
      ("embedding", Embedding(vectorsPath, profile))
    ], 3.0)
  }

  /**
   * A row encoded for training with profile flag `profile` is accepted by
   * every block of `GetModel(_, profile)` that decodes records: the word
   * analyzer returns tokens and the target column's decoding succeeds.
   */
  lemma ModelAcceptsEncodedRows(vectorsPath: string, row: Row, profile: bool, H: Hashtags)
    requires "company" in row && "tweet_norm" in row && (profile ==> "profile_norm" in row)
    requires '\t' !in row["company"] && '\t' !in row["tweet_norm"]
    requires profile ==> '\t' !in row["profile_norm"]
    ensures EncodeX(row, false, profile, H).Ok?
    ensures var m, x := GetModel(vectorsPath, profile), EncodeX(row, false, profile, H).value;
      m.features[0].1.analyzer.Analyze(x).Ok?
      && SplitXValue(x, m.features[2].1.vectorizer.profile).Ok?
  {
    SplitGetXRoundTrip(row, profile, H);
  }
}
