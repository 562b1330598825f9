/** The subset of Python's `str` API that the pipeline uses, on `string = seq<char>`. */
module Text {
  import opened Wrappers

  /** Python's `str.isspace()`: the characters `str.split()` and `str.strip()` treat as whitespace. */
  predicate IsSpace(c: char) {
    || c == ' ' || '\t' <= c <= '\r' || '\U{1C}' <= c <= '\U{1F}'
    || c == '\U{85}' || c == '\U{A0}' || c == '\U{1680}' || '\U{2000}' <= c <= '\U{200A}'
    || c == '\U{2028}' || c == '\U{2029}' || c == '\U{202F}' || c == '\U{205F}' || c == '\U{3000}'
  }

  /** `s.startswith(p)` */
  predicate StartsWith(s: string, p: string) {
    |p| <= |s| && s[..|p|] == p
  }

  /** `s.endswith(p)` */
  predicate EndsWith(s: string, p: string) {
    |p| <= |s| && s[|s| - |p|..] == p
  }

  /** `p` occurs in `s` at index `i` */
  predicate OccursAt(s: string, p: string, i: nat) {
    i + |p| <= |s| && s[i..i + |p|] == p
  }

  /** `s.find(p, from)`: the leftmost occurrence of `p` at or after `from`. */
  function IndexOf(s: string, p: string, from: nat): (r: Option<nat>)
    decreases |s| - from
    ensures r.Some? ==> from <= r.value && OccursAt(s, p, r.value)
    ensures r.Some? ==> forall j :: from <= j < r.value ==> !OccursAt(s, p, j)
    ensures r.None? ==> forall j :: from <= j ==> !OccursAt(s, p, j)
  {
    if from + |p| > |s| then None
    else if s[from..from + |p|] == p then Some(from)
    else IndexOf(s, p, from + 1)
  }

  /** `p in s` */
  predicate Contains(s: string, p: string) {
    IndexOf(s, p, 0).Some?
  }

  lemma ContainsChar(s: string, p: string)
    requires |p| > 0 && p[0] !in s
    ensures !Contains(s, p)
  {
    assert forall j :: 0 <= j && j + |p| <= |s| ==> s[j..j + |p|][0] == s[j] != p[0];
  }

  /** `s.replace(p, v, 1)`: replace the leftmost occurrence of `p`, if there is one. */
  function ReplaceFirst(s: string, p: string, v: string): (r: string)
    ensures !Contains(s, p) ==> r == s
    ensures Contains(s, p) ==> var k := IndexOf(s, p, 0).value; r == s[..k] + v + s[k + |p|..]
  {
    match IndexOf(s, p, 0)
    case None => s
    case Some(k) => s[..k] + v + s[k + |p|..]
  }

  /** `s.replace(a, b)` for one-character `a` and `b` */
  function ReplaceChar(s: string, a: char, b: char): (r: string)
    ensures |r| == |s|
    ensures forall i :: 0 <= i < |s| ==> r[i] == (if s[i] == a then b else s[i])
  {
    seq(|s|, i requires 0 <= i < |s| => if s[i] == a then b else s[i])
  }

  /** `s.replace(c, '')` for a one-character `c` */
  function RemoveChar(s: string, c: char): (r: string)
    ensures c !in r
    ensures |r| <= |s|
  {
    if s == [] then []
    else (if s[0] == c then [] else [s[0]]) + RemoveChar(s[1..], c)
  }

  /** Every character other than `c` occurs as often after the removal as before. */
  lemma {:induction false} RemoveCharCounts(s: string, c: char)
    ensures forall x :: x != c ==> multiset(RemoveChar(s, c))[x] == multiset(s)[x]
  {
    if s != [] {
      RemoveCharCounts(s[1..], c);
      assert s == [s[0]] + s[1..];
    }
  }

  /**
   * Removal keeps the other characters in their order: it works piece by
   * piece (and `RemoveCharSingle` says what it does to one character).
   */
  lemma {:induction false} RemoveCharConcat(a: string, b: string, c: char)
    ensures RemoveChar(a + b, c) == RemoveChar(a, c) + RemoveChar(b, c)
  {
    if a == [] {
      assert a + b == b;
    } else {
      var x, t := a[0], a[1..];
      var h := if x == c then [] else [x];
      calc {
        RemoveChar(a + b, c);
        { assert a + b == [x] + (t + b); }
        RemoveChar([x] + (t + b), c);
        { RemoveCharCons(x, t + b, c); }
        h + RemoveChar(t + b, c);
        { RemoveCharConcat(t, b, c); }
        h + (RemoveChar(t, c) + RemoveChar(b, c));
        (h + RemoveChar(t, c)) + RemoveChar(b, c);
        { RemoveCharCons(x, t, c); assert a == [x] + t; }
        RemoveChar(a, c) + RemoveChar(b, c);
      }
    }
  }

  /** Removal on a string with a known first character. */
  lemma RemoveCharCons(x: char, t: string, c: char)
    ensures RemoveChar([x] + t, c) == (if x == c then [] else [x]) + RemoveChar(t, c)
  {
    assert ([x] + t)[1..] == t;
  }

  /** Removal drops `c` itself and keeps any other character. */
  lemma RemoveCharSingle(x: char, c: char)
    ensures RemoveChar([x], c) == if x == c then [] else [x]
  {
    assert [x][1..] == [];
  }

  /** ASCII case folding of one character (Python's `str.lower()` restricted to ASCII). */
  function LowerChar(c: char): char {
    if 'A' <= c <= 'Z' then (c as int + 32) as char else c
  }

  /** `s.lower()` */
  function Lower(s: string): (r: string)
    ensures |r| == |s|
    ensures forall i :: 0 <= i < |s| ==> r[i] == LowerChar(s[i])
  {
    seq(|s|, i requires 0 <= i < |s| => LowerChar(s[i]))
  }

  lemma LowerIdempotent(s: string)
    ensures Lower(Lower(s)) == Lower(s)
  {
  }

  /** `sep.join(parts)` */
  function Join(sep: string, parts: seq<string>): (r: string)
  {
    if |parts| == 0 then ""
    else if |parts| == 1 then parts[0]
    else parts[0] + sep + Join(sep, parts[1..])
  }

  /** `s.split(c)` for a one-character separator: always at least one field. */
  function Split(s: string, c: char): (fields: seq<string>)
    ensures |fields| >= 1
    ensures forall f :: f in fields ==> c !in f
  {
    if s == [] then [""]
    else if s[0] == c then [""] + Split(s[1..], c)
    else
      var rest := Split(s[1..], c);
      [[s[0]] + rest[0]] + rest[1..]
  }

  /** Splitting undoes joining whenever no field holds the separator. */
  lemma {:induction false} SplitJoin(parts: seq<string>, c: char)
    requires |parts| >= 1
    requires forall k :: 0 <= k < |parts| ==> c !in parts[k]
    ensures Split(Join([c], parts), c) == parts
  {
    if |parts| == 1 {
      SplitNoSeparator(parts[0], c);
    } else {
      SplitJoin(parts[1..], c);
      SplitPrefix(parts[0], Join([c], parts[1..]), c);
      assert Join([c], parts) == parts[0] + [c] + Join([c], parts[1..]);
    }
  }

  lemma {:induction false} SplitNoSeparator(s: string, c: char)
    requires c !in s
    ensures Split(s, c) == [s]
  {
    if s != [] {
      SplitNoSeparator(s[1..], c);
      assert [s[0]] + s[1..] == s;
    }
  }

  lemma {:induction false} SplitPrefix(f: string, t: string, c: char)
    requires c !in f
    ensures Split(f + [c] + t, c) == [f] + Split(t, c)
  {
    if f == [] {
      assert f + [c] + t == [c] + t;
      assert ([c] + t)[1..] == t;
    } else {
      SplitPrefix(f[1..], t, c);
      assert (f + [c] + t)[1..] == f[1..] + [c] + t;
      assert [f[0]] + f[1..] == f;
    }
  }

  /** The length of the leading run of non-whitespace characters. */
  function TokenLength(s: string): (n: nat)
    ensures n <= |s|
    ensures s != [] && !IsSpace(s[0]) ==> n > 0
    ensures forall i :: 0 <= i < n ==> !IsSpace(s[i])
    ensures n < |s| ==> IsSpace(s[n])
  {
    if s == [] || IsSpace(s[0]) then 0 else 1 + TokenLength(s[1..])
  }

  /** `s.split()`: the maximal runs of non-whitespace characters, in order. */
  function Words(s: string): (ws: seq<string>)
    decreases |s|
    ensures forall k :: 0 <= k < |ws| ==> ws[k] != []
    ensures forall k, i :: 0 <= k < |ws| && 0 <= i < |ws[k]| ==> !IsSpace(ws[k][i])
  {
    if s == [] then []
    else if IsSpace(s[0]) then Words(s[1..])
    else
      var n := TokenLength(s);
      [s[..n]] + Words(s[n..])
  }

  /** A run of non-whitespace characters followed by whitespace (or nothing) ends where it ends. */
  lemma {:induction false} TokenLengthConcat(x: string, y: string)
    requires y == [] || IsSpace(y[0])
    ensures TokenLength(x + y) == TokenLength(x)
  {
    if x != [] && !IsSpace(x[0]) {
      TokenLengthConcat(x[1..], y);
      assert (x + y)[1..] == x[1..] + y;
    }
  }

  /** A non-empty string without whitespace is one word. */
  lemma {:induction false} WordsSingle(s: string)
    requires s != [] && forall i :: 0 <= i < |s| ==> !IsSpace(s[i])
    ensures Words(s) == [s]
  {
    TokenLengthConcat(s, []);
    assert s + [] == s;
    TokenLengthFull(s);
  }

  lemma {:induction false} TokenLengthFull(s: string)
    requires forall i :: 0 <= i < |s| ==> !IsSpace(s[i])
    ensures TokenLength(s) == |s|
  {
    if s != [] {
      TokenLengthFull(s[1..]);
    }
  }

  /** Splitting on whitespace distributes over a whitespace separator. */
  lemma WordsSeparated(a: string, c: char, b: string)
    requires IsSpace(c)
    ensures Words(a + [c] + b) == Words(a) + Words(b)
  {
    WordsBeforeSpace(a, [c] + b);
    assert a + [c] + b == a + ([c] + b);
    assert ([c] + b)[1..] == b;
  }

  /** Text followed by whitespace splits into its own words, then those of the rest. */
  lemma {:induction false} WordsBeforeSpace(a: string, t: string)
    requires t != [] && IsSpace(t[0])
    ensures Words(a + t) == Words(a) + Words(t[1..])
    decreases |a|
  {
    if a == [] {
      assert a + t == t;
    } else if IsSpace(a[0]) {
      CutConcat(a, t, 1);
      WordsBeforeSpace(a[1..], t);
    } else {
      WordsBeforeSpace(a[TokenLength(a)..], t);
      WordsBeforeSpaceToken(a, t, Words(t[1..]));
    }
  }

  /** The step of `WordsBeforeSpace` when `a` starts with a word: that word is split off first. */
  lemma WordsBeforeSpaceToken(a: string, t: string, rest: seq<string>)
    requires t != [] && IsSpace(t[0]) && a != [] && !IsSpace(a[0])
    requires Words(a[TokenLength(a)..] + t) == Words(a[TokenLength(a)..]) + rest
    ensures Words(a + t) == Words(a) + rest
  {
    var n := TokenLength(a);
    TokenLengthConcat(a, t);
    CutConcat(a, t, n);
    assert (a + t)[0] == a[0];
  }

  /** Cutting a concatenation inside its first part. */
  lemma CutConcat(a: string, t: string, n: nat)
    requires n <= |a|
    ensures (a + t)[..n] == a[..n] && (a + t)[n..] == a[n..] + t
  {
  }

  /** `s.strip()`: drop leading and trailing whitespace. */
  function Strip(s: string): (r: string)
    ensures r == [] || (!IsSpace(r[0]) && !IsSpace(r[|r| - 1]))
    decreases |s|
  {
    if s == [] then []
    else if IsSpace(s[0]) then Strip(s[1..])
    else if IsSpace(s[|s| - 1]) then Strip(s[..|s| - 1])
    else s
  }

  /** Every character is whitespace. */
  predicate AllSpace(w: string) {
    forall i :: 0 <= i < |w| ==> IsSpace(w[i])
  }

  /** Leading whitespace does not change what stripping gives. */
  lemma {:induction false} StripLeading(s: string, i: nat)
    requires i <= |s| && AllSpace(s[..i])
    ensures Strip(s) == Strip(s[i..])
    decreases i
  {
    if i > 0 {
      assert IsSpace(s[..i][0]);
      assert s[1..][..i - 1] == s[1..i];
      StripLeading(s[1..], i - 1);
      assert s[1..][i - 1..] == s[i..];
    }
  }

  /** Trailing whitespace after a non-space first character does not change what stripping gives. */
  lemma {:induction false} StripTrailing(s: string, j: nat)
    requires 0 < j <= |s| && !IsSpace(s[0]) && AllSpace(s[j..])
    ensures Strip(s) == Strip(s[..j])
    decreases |s| - j
  {
    if j < |s| {
      var t := s[..|s| - 1];
      assert s[j..][|s| - 1 - j] == s[|s| - 1];
      assert IsSpace(s[|s| - 1]);
      assert t[0] == s[0] && Strip(s) == Strip(t);
      assert t[j..] == s[j..|s| - 1];
      StripTrailing(t, j);
      assert t[..j] == s[..j];
    } else {
      assert s[..j] == s;
    }
  }

  /** A text with no whitespace at either end is its own strip. */
  lemma StripFixed(c: string)
    requires c == [] || (!IsSpace(c[0]) && !IsSpace(c[|c| - 1]))
    ensures Strip(c) == c
  {
  }

  /**
   * Only the leading and trailing whitespace goes: when `s[..i]` and
   * `s[j..]` are whitespace and `s[i..j]` is empty or has non-space ends,
   * stripping gives back exactly `s[i..j]`.
   */
  lemma StripCore(s: string, i: nat, j: nat)
    requires i <= j <= |s|
    requires AllSpace(s[..i]) && AllSpace(s[j..])
    requires i == j || (!IsSpace(s[i]) && !IsSpace(s[j - 1]))
    ensures Strip(s) == s[i..j]
  {
    StripLeading(s, i);
    if i < j {
      StripInner(s[i..], j - i);
      assert s[i..][..j - i] == s[i..j];
    } else {
      AllSpaceStrip(s[i..]);
    }
  }

  /** A text with a non-space first character and whitespace after index `j` strips to its first `j` characters, if the `j`-th is no space. */
  lemma StripInner(u: string, j: nat)
    requires 0 < j <= |u| && !IsSpace(u[0]) && !IsSpace(u[j - 1]) && AllSpace(u[j..])
    ensures Strip(u) == u[..j]
  {
    StripTrailing(u, j);
    StripFixed(u[..j]);
  }

  /** A text of whitespace only strips to nothing. */
  lemma AllSpaceStrip(u: string)
    requires AllSpace(u)
    ensures Strip(u) == []
  {
    assert u[..|u|] == u;
    StripLeading(u, |u|);
  }

  function DigitChar(d: nat): char
    requires d < 10
  {
    "0123456789"[d]
  }

  /** `str(n)` for a non-negative integer: its decimal digits, most significant first. */
  function NatToString(n: nat): (r: string)
    decreases n
  {
    if n < 10 then [DigitChar(n)] else NatToString(n / 10) + [DigitChar(n % 10)]
  }

  lemma {:induction false} NatToStringShape(n: nat)
    ensures |NatToString(n)| >= 1
    ensures n >= 10 <==> |NatToString(n)| >= 2
    ensures forall i :: 0 <= i < |NatToString(n)| ==> '0' <= NatToString(n)[i] <= '9'
  {
    if n >= 10 {
      NatToStringShape(n / 10);
    }
  }

  /** Different numbers have different decimal renderings. */
  lemma {:induction false} NatToStringInjective(a: nat, b: nat)
    requires NatToString(a) == NatToString(b)
    ensures a == b
  {
    NatToStringShape(a);
    NatToStringShape(b);
    if a >= 10 && b >= 10 {
      var sa, sb := NatToString(a), NatToString(b);
      assert sa[..|sa| - 1] == NatToString(a / 10);
      assert sb[..|sb| - 1] == NatToString(b / 10);
      NatToStringInjective(a / 10, b / 10);
      assert DigitChar(a % 10) == DigitChar(b % 10);
    }
  }
}
