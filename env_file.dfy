/** The string edit behind `saveRefreshToken` (utils/jquantsApi.ts:14-25):
    the content is passed through a `replace` whose pattern is the key
    `JQUANTS_REFRESH_TOKEN=` followed by `.*`, and whose replacement is
    the key followed by the token.

    The regular expression has no `g` flag and no anchor, so it rewrites only
    the leftmost occurrence of the key, wherever it stands on its line, and
    `.*` runs greedily up to (not including) the first JavaScript line
    terminator. The replacement is a string, so JavaScript expands the `$`
    patterns in it (`$$`, `$&`, `` $` ``, `$'`) before inserting it. */
module EnvFile {
  import opened Wrappers

  const Key: string := "JQUANTS_REFRESH_TOKEN="

  /** The characters `.` does not match in a JavaScript regular expression. */
  predicate IsLineTerminator(c: char) {
    c == '\n' || c == '\r' || c == '\U{2028}' || c == '\U{2029}'
  }

  predicate OccursAt(s: string, i: nat) {
    i + |Key| <= |s| && s[i..i + |Key|] == Key
  }

  /** The leftmost position at or after `from` where the key occurs. */
  function FindKey(s: string, from: nat): (r: Option<nat>)
    requires from <= |s|
    ensures r.Some? ==> from <= r.value && OccursAt(s, r.value)
    ensures r.Some? ==> forall j :: from <= j < r.value ==> !OccursAt(s, j)
    ensures r.None? ==> forall j :: from <= j ==> !OccursAt(s, j)
    decreases |s| - from
  {
    if from + |Key| > |s| then None
    else if s[from..from + |Key|] == Key then Some(from)
    else FindKey(s, from + 1)
  }

  /** Where the greedy `.*` that starts at `from` stops: the first line
      terminator at or after `from`, or the end of the text. */
  function LineEnd(s: string, from: nat): (e: nat)
    requires from <= |s|
    ensures from <= e <= |s|
    ensures forall k :: from <= k < e ==> !IsLineTerminator(s[k])
    ensures e == |s| || IsLineTerminator(s[e])
    decreases |s| - from
  {
    if from == |s| || IsLineTerminator(s[from]) then from
    else LineEnd(s, from + 1)
  }

  /** JavaScript's expansion of a replacement string for a match without
      capture groups: `$$` gives `$`, `$&` the matched text, `` $` `` the text
      before the match, `$'` the text after it; any other `$` stays as it is. */
  function Substitute(t: string, before: string, matched: string, after: string): (r: string)
    // a replacement text without `$` is inserted literally
    ensures '$' !in t ==> r == t
    decreases |t|
  {
    if t == [] then []
    else if t[0] == '$' && |t| >= 2 && t[1] == '$' then "$" + Substitute(t[2..], before, matched, after)
    else if t[0] == '$' && |t| >= 2 && t[1] == '&' then matched + Substitute(t[2..], before, matched, after)
    else if t[0] == '$' && |t| >= 2 && t[1] == '`' then before + Substitute(t[2..], before, matched, after)
    else if t[0] == '$' && |t| >= 2 && t[1] == '\'' then after + Substitute(t[2..], before, matched, after)
    else [t[0]] + Substitute(t[1..], before, matched, after)
  }

  /** The new content of the env file after `saveRefreshToken(token)`. */
  function ReplaceKeyLine(s: string, token: string): (r: string)
    // without the key the content is written back as it was
    ensures (forall j: nat :: !OccursAt(s, j)) ==> r == s
    // the text before the first occurrence is kept
    ensures FindKey(s, 0).Some? ==> s[..FindKey(s, 0).value] <= r
  {
    match FindKey(s, 0)
    case None => s
    case Some(i) =>
      var e := LineEnd(s, i + |Key|);
      s[..i] + Substitute(Key + token, s[..i], s[i..e], s[e..]) + s[e..]
  }

  /** The value the same pattern finds in a file: the text after the first
      `JQUANTS_REFRESH_TOKEN=` up to the end of that line. */
  function ReadKey(s: string): (r: Option<string>)
    ensures r.None? <==> forall j: nat :: !OccursAt(s, j)
    // the value never runs past the end of its line
    ensures r.Some? ==> forall k :: 0 <= k < |r.value| ==> !IsLineTerminator(r.value[k])
    // the value follows the first occurrence of the key and runs to the end
    // of its line
    ensures r.Some? ==> exists i: nat :: ValueAt(s, i, r.value)
  {
    match FindKey(s, 0)
    case None => None
    case Some(i) =>
      var v := s[i + |Key|..LineEnd(s, i + |Key|)];
      assert ValueAt(s, i, v);
      Some(v)
  }

  /** `v` is the text from the end of the first occurrence of the key, at
      `i`, up to the next line terminator or the end of the text. */
  predicate ValueAt(s: string, i: nat, v: string) {
    OccursAt(s, i) && (forall j: nat :: j < i ==> !OccursAt(s, j)) &&
    i + |Key| + |v| <= |s| && s[i + |Key|..i + |Key| + |v|] == v &&
    (i + |Key| + |v| == |s| || IsLineTerminator(s[i + |Key| + |v|]))
  }

  /** Two leftmost occurrences are the same one: whatever the search
      returns is the first occurrence. */
  lemma FirstOccurrenceFound(s: string, i: nat)
    requires OccursAt(s, i) && forall j: nat :: j < i ==> !OccursAt(s, j)
    ensures FindKey(s, 0) == Some(i)
  {
  }

  /** The greedy `.*` stops exactly `n` characters after `from` when those
      `n` characters hold no line terminator and a terminator (or the end of
      the text) follows them. */
  lemma LineEndAt(s: string, from: nat, n: nat)
    requires from + n <= |s|
    requires forall k :: from <= k < from + n ==> !IsLineTerminator(s[k])
    requires from + n == |s| || IsLineTerminator(s[from + n])
    ensures LineEnd(s, from) == from + n
  {
  }

  /** Where the search finds the key, a `$`-free token is written literally
      between the text before the occurrence and the rest of the text from
      the line terminator on. */
  lemma ReplaceAtFound(s: string, token: string)
    requires '$' !in token
    requires FindKey(s, 0).Some?
    ensures var i := FindKey(s, 0).value;
      ReplaceKeyLine(s, token) == s[..i] + Key + token + s[LineEnd(s, i + |Key|)..]
  {
    var i := FindKey(s, 0).value;
    var e := LineEnd(s, i + |Key|);
    var sub := Substitute(Key + token, s[..i], s[i..e], s[e..]);
    assert sub == Key + token by {
      KeyHasNoDollar();
      SubstituteLiteralPrefix(Key, token, s[..i], s[i..e], s[e..]);
    }
    assert ReplaceKeyLine(s, token) == s[..i] + sub + s[e..];
    assert s[..i] + (Key + token) == s[..i] + Key + token;
  }

  lemma KeyHasNoDollar()
    ensures '$' !in Key
  {
    assert forall k :: 0 <= k < |Key| ==> Key[k] != '$';
  }

  /** Saving a `$`-free token rewrites exactly the first key occurrence up to
      its line end into `JQUANTS_REFRESH_TOKEN=<token>`; everything before the
      occurrence and everything from the line terminator on is kept; without
      any occurrence the content is written back unchanged. */
  lemma ReplaceKeyLineSpec(s: string, token: string)
    requires '$' !in token
    ensures (forall j: nat :: !OccursAt(s, j)) ==> ReplaceKeyLine(s, token) == s
    ensures forall i: nat :: OccursAt(s, i) && (forall j: nat :: j < i ==> !OccursAt(s, j)) ==>
      ReplaceKeyLine(s, token) == s[..i] + Key + token + s[LineEnd(s, i + |Key|)..]
  {
    forall i: nat | OccursAt(s, i) && (forall j: nat :: j < i ==> !OccursAt(s, j))
      ensures ReplaceKeyLine(s, token) == s[..i] + Key + token + s[LineEnd(s, i + |Key|)..]
    {
      FirstOccurrenceFound(s, i);
      ReplaceAtFound(s, token);
    }
  }

  /** Rewriting the text from the end of a key occurrence at `i` on keeps
      every position before `i` free of the key, as it was. */
  lemma {:induction false} KeepsEarlierOccurrences(s: string, t: string, i: nat)
    requires i + |Key| <= |s| && i + |Key| <= |t| && t[..i + |Key|] == s[..i + |Key|]
    requires forall j: nat :: j < i ==> !OccursAt(s, j)
    ensures forall j: nat :: j < i ==> !OccursAt(t, j)
  {
    forall j: nat | j < i ensures !OccursAt(t, j) {
      assert !OccursAt(s, j);
      assert t[j..j + |Key|] == t[..i + |Key|][j..j + |Key|];
      assert s[j..j + |Key|] == s[..i + |Key|][j..j + |Key|];
    }
  }

  /** The persisted token is read back: when the file already holds the key
      and the token has neither `$` nor a line terminator, the first key
      occurrence of the new content carries exactly the token. */
  lemma PersistRoundTrip(s: string, token: string)
    requires exists i: nat :: OccursAt(s, i)
    requires '$' !in token
    requires forall k :: 0 <= k < |token| ==> !IsLineTerminator(token[k])
    ensures ReadKey(ReplaceKeyLine(s, token)) == Some(token)
  {
    var i := FindKey(s, 0).value;
    var e := LineEnd(s, i + |Key|);
    ReplaceAtFound(s, token);
    var t := s[..i] + Key + token + s[e..];
    RewrittenLine(s, i, e, token);
    KeepsEarlierOccurrences(s, t, i);
    FirstOccurrenceFound(t, i);
    LineEndAt(t, i + |Key|, |token|);
  }

  /** The shape of the rewritten text around the occurrence at `i`: the text
      up to the end of the key is as before, the token follows it, and then
      the old line terminator (or the end of the text). */
  lemma RewrittenLine(s: string, i: nat, e: nat, token: string)
    requires OccursAt(s, i) && i + |Key| <= e <= |s|
    requires e == |s| || IsLineTerminator(s[e])
    requires forall k :: 0 <= k < |token| ==> !IsLineTerminator(token[k])
    ensures var t := s[..i] + Key + token + s[e..];
      var from := i + |Key|;
      from + |token| <= |t| && t[..from] == s[..from] && OccursAt(t, i) &&
      (forall k :: from <= k < from + |token| ==> !IsLineTerminator(t[k])) &&
      (from + |token| == |t| || IsLineTerminator(t[from + |token|])) &&
      t[from..from + |token|] == token
  {
    var t := s[..i] + Key + token + s[e..];
    var from := i + |Key|;
    assert t[..from] == s[..i] + Key;
    assert s[..from] == s[..i] + s[i..from];
    assert t[i..from] == Key;
    assert t[from..from + |token|] == token;
    forall k | from <= k < from + |token| ensures !IsLineTerminator(t[k]) {
      assert t[k] == token[k - from];
    }
    if from + |token| < |t| {
      assert t[from + |token|] == s[e];
    }
  }

  /** Without the key in the file nothing is persisted: the content is kept
      and reading it back still finds no value. */
  lemma MissingKeyNotPersisted(s: string, token: string)
    requires forall j: nat :: !OccursAt(s, j)
    ensures ReplaceKeyLine(s, token) == s
    ensures ReadKey(ReplaceKeyLine(s, token)) == None
  {
  }

  /** A token holding `$&` is not written literally: JavaScript inserts the
      whole matched text in its place. */
  lemma DollarPatternExpands(s: string)
    requires OccursAt(s, 0)
    ensures var e := LineEnd(s, |Key|);
      ReplaceKeyLine(s, "$&") == Key + s[..e] + s[e..]
  {
    var e := LineEnd(s, |Key|);
    FirstOccurrenceFound(s, 0);
    var sub := Substitute(Key + "$&", s[..0], s[0..e], s[e..]);
    assert sub == Key + s[..e] by {
      assert s[..0] == [] && s[0..e] == s[..e];
      assert Substitute("$&", [], s[..e], s[e..]) == s[..e];
      KeyHasNoDollar();
      SubstituteLiteralPrefix(Key, "$&", [], s[..e], s[e..]);
    }
    assert ReplaceKeyLine(s, "$&") == s[..0] + sub + s[e..];
    assert s[..0] + sub == sub;
  }

  /** A `$`-free prefix of a replacement text is copied literally. */
  lemma {:induction false} SubstituteLiteralPrefix(a: string, b: string, before: string, matched: string, after: string)
    requires '$' !in a
    ensures Substitute(a + b, before, matched, after) == a + Substitute(b, before, matched, after)
    decreases |a|
  {
    if a == [] {
      assert a + b == b;
    } else {
      var rest := Substitute(b, before, matched, after);
      calc {
        Substitute(a + b, before, matched, after);
        { assert a + b == [a[0]] + (a[1..] + b); }
        Substitute([a[0]] + (a[1..] + b), before, matched, after);
        { SubstituteCons(a[0], a[1..] + b, before, matched, after); }
        [a[0]] + Substitute(a[1..] + b, before, matched, after);
        { assert '$' !in a[1..];
          SubstituteLiteralPrefix(a[1..], b, before, matched, after); }
        [a[0]] + (a[1..] + rest);
        { assert [a[0]] + a[1..] == a; }
        a + rest;
      }
    }
  }

  /** A character other than `$` is copied as it is. */
  lemma SubstituteCons(c: char, t: string, before: string, matched: string, after: string)
    requires c != '$'
    ensures Substitute([c] + t, before, matched, after) == [c] + Substitute(t, before, matched, after)
  {
    assert ([c] + t)[1..] == t;
  }
}
