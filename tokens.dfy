/**
 * The text dump of `src/token_extractor.py`: the distinct tweet texts, then
 * the distinct profile texts, one per line. Reading the CSV and writing the
 * file are left out; the model is the sequence of lines written.
 */
module TokenExtractor {
  import opened Text

  /** `Series.unique()`: each value once, in order of first appearance. */
  function Unique(xs: seq<string>): (u: seq<string>)
    ensures forall x :: multiset(u)[x] == if x in xs then 1 else 0
  {
    if xs == [] then []
    else
      var init, last := xs[..|xs| - 1], xs[|xs| - 1];
      assert xs == init + [last];
      var u := Unique(init);
      if last in u then u else u + [last]
  }

  /** Every value of the column appears in the unique values exactly once. */
  lemma UniqueExactlyOnce(xs: seq<string>, x: string)
    requires x in xs
    ensures x in Unique(xs)
    ensures forall i, j :: 0 <= i < j < |Unique(xs)| ==> Unique(xs)[i] != Unique(xs)[j]
  {
    var u := Unique(xs);
    assert multiset(u)[x] == 1;
    forall i, j | 0 <= i < j < |u|
      ensures u[i] != u[j]
    {
      assert u == u[..j] + u[j..];
      assert u[i] in u[..j] && u[j] in u[j..];
      assert multiset(u)[u[j]] == multiset(u[..j])[u[j]] + multiset(u[j..])[u[j]];
    }
  }

  /** The position of the first occurrence of `x`. */
  function FirstIndex(xs: seq<string>, x: string): (r: nat)
    requires x in xs
    ensures r < |xs| && xs[r] == x && x !in xs[..r]
  {
    var init := xs[..|xs| - 1];
    assert xs == init + [xs[|xs| - 1]];
    if x in init then
      var r := FirstIndex(init, x);
      assert xs[..r] == init[..r];
      r
    else
      |xs| - 1
  }

  /** The unique values keep the order of their first appearance in the column. */
  lemma {:induction false} UniqueFirstAppearanceOrder(xs: seq<string>, i: nat, j: nat)
    requires i < j < |Unique(xs)|
    ensures Unique(xs)[i] in xs && Unique(xs)[j] in xs
    ensures FirstIndex(xs, Unique(xs)[i]) < FirstIndex(xs, Unique(xs)[j])
  {
    var u := Unique(xs);
    assert multiset(u)[u[i]] > 0 && multiset(u)[u[j]] > 0;
    var init, last := xs[..|xs| - 1], xs[|xs| - 1];
    assert xs == init + [last];
    var v := Unique(init);
    if j < |v| {
      assert u[i] == v[i] && u[j] == v[j];
      UniqueFirstAppearanceOrder(init, i, j);
      FirstIndexPrefix(init, last, v[i]);
      FirstIndexPrefix(init, last, v[j]);
    } else {
      assert u[j] == last && last !in v;
      assert multiset(v)[u[i]] > 0;
      FirstIndexPrefix(init, last, u[i]);
      assert multiset(v)[last] == 0;
    }
  }

  /** Appending a value leaves the first occurrences of the earlier values where they were. */
  lemma FirstIndexPrefix(init: seq<string>, last: string, x: string)
    requires x in init
    ensures FirstIndex(init + [last], x) == FirstIndex(init, x)
  {
    assert (init + [last])[..|init + [last]| - 1] == init;
  }

  /** Each text followed by a newline (`unique() + '\n'`). */
  function Lines(texts: seq<string>): (ls: seq<string>)
    ensures |ls| == |texts|
    ensures forall k :: 0 <= k < |texts| ==> EndsWith(ls[k], "\n") && ls[k][..|ls[k]| - 1] == texts[k]
  {
    seq(|texts|, k requires 0 <= k < |texts| => texts[k] + "\n")
  }

  /**
   * `token_extractor`: the lines written, the tweet block first, then the
   * profile block, each deduplicated on its own.
   */
  function TokenLines(tweets: seq<string>, profiles: seq<string>): (ls: seq<string>)
    ensures |ls| == |Unique(tweets)| + |Unique(profiles)|
    ensures ls[..|Unique(tweets)|] == Lines(Unique(tweets))
    ensures ls[|Unique(tweets)|..] == Lines(Unique(profiles))
  {
    Lines(Unique(tweets)) + Lines(Unique(profiles))
  }

  /** Every line is a text followed by a newline. */
  lemma EveryLineEndsWithNewline(tweets: seq<string>, profiles: seq<string>, k: nat)
    requires k < |TokenLines(tweets, profiles)|
    ensures EndsWith(TokenLines(tweets, profiles)[k], "\n")
  {
    var ls := TokenLines(tweets, profiles);
    var n := |Unique(tweets)|;
    if k < n {
      assert ls[k] == ls[..n][k];
    } else {
      assert ls[k] == ls[n..][k - n];
    }
  }

  /** The line of a tweet text occurs exactly once in the tweet block. */
  lemma TweetLineOnce(tweets: seq<string>, profiles: seq<string>, t: string)
    requires t in tweets
    ensures var block := TokenLines(tweets, profiles)[..|Unique(tweets)|];
      exists k :: (0 <= k < |block| && block[k] == t + "\n"
        && forall j :: 0 <= j < |block| && block[j] == t + "\n" ==> j == k)
  {
    var u := Unique(tweets);
    var block := TokenLines(tweets, profiles)[..|u|];
    UniqueExactlyOnce(tweets, t);
    var k :| 0 <= k < |u| && u[k] == t;
    assert block[k] == t + "\n";
    forall j | 0 <= j < |block| && block[j] == t + "\n"
      ensures j == k
    {
      assert block[j][..|block[j]| - 1] == u[j];
      assert (t + "\n")[..|t|] == t;
    }
  }

  /** A text present in both columns is written in both blocks. */
  lemma SharedTextInBothBlocks(tweets: seq<string>, profiles: seq<string>, s: string)
    requires s in tweets && s in profiles
    ensures s + "\n" in TokenLines(tweets, profiles)[..|Unique(tweets)|]
    ensures s + "\n" in TokenLines(tweets, profiles)[|Unique(tweets)|..]
  {
    var ut, up := Unique(tweets), Unique(profiles);
    assert multiset(ut)[s] == 1 && multiset(up)[s] == 1;
    var i :| 0 <= i < |ut| && ut[i] == s;
    var j :| 0 <= j < |up| && up[j] == s;
    assert Lines(ut)[i] == s + "\n";
    assert Lines(up)[j] == s + "\n";
  }
}
