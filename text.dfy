/**
 * The string operations the configuration loader relies on: the prefix and
 * suffix tests, whitespace trimming and splitting into whitespace-separated
 * fields.  Whitespace is the ASCII set (tab, line feed, vertical tab, form
 * feed, carriage return, space).
 */
module Text {

  predicate IsSpace(c: char) {
    c == ' ' || c == '\t' || c == '\n' || c == '\U{B}' || c == '\U{C}' || c == '\r'
  }

  /** No character of `s` is whitespace. */
  predicate NoSpace(s: string) {
    forall i :: 0 <= i < |s| ==> !IsSpace(s[i])
  }

  /** Every character of `s` is whitespace (vacuously true of ""). */
  predicate AllSpace(s: string) {
    forall i :: 0 <= i < |s| ==> IsSpace(s[i])
  }

  /** `s` starts with `prefix`. */
  predicate HasPrefix(s: string, prefix: string) {
    |prefix| <= |s| && s[..|prefix|] == prefix
  }

  /** `s` ends with `suffix`. */
  predicate HasSuffix(s: string, suffix: string) {
    |suffix| <= |s| && s[|s| - |suffix|..] == suffix
  }

  /** `s` with every whitespace character deleted. */
  function RemoveSpace(s: string): string {
    if s == [] then []
    else (if IsSpace(s[0]) then [] else [s[0]]) + RemoveSpace(s[1..])
  }

  /** Number of whitespace characters at the start of `s`. */
  function LeadingSpace(s: string): (n: nat)
    ensures n <= |s| && AllSpace(s[..n])
    ensures n < |s| ==> !IsSpace(s[n])
  {
    if s == [] || !IsSpace(s[0]) then 0
    else
      var m := LeadingSpace(s[1..]);
      assert s[..m + 1] == [s[0]] + s[1..][..m];
      m + 1
  }

  /** Number of whitespace characters at the end of `s`. */
  function TrailingSpace(s: string): (n: nat)
    ensures n <= |s| && AllSpace(s[|s| - n..])
    ensures n < |s| ==> !IsSpace(s[|s| - n - 1])
  {
    if s == [] || !IsSpace(s[|s| - 1]) then 0
    else
      var prefix := s[..|s| - 1];
      var m := TrailingSpace(prefix);
      assert s[|s| - (m + 1)..] == prefix[|prefix| - m..] + [s[|s| - 1]];
      m + 1
  }

  /** Length of the run of non-whitespace characters that starts `s`. */
  function WordLength(s: string): (n: nat)
    ensures n <= |s| && NoSpace(s[..n])
    ensures n < |s| ==> IsSpace(s[n])
  {
    if s == [] || IsSpace(s[0]) then 0
    else
      var m := WordLength(s[1..]);
      assert s[..m + 1] == [s[0]] + s[1..][..m];
      m + 1
  }

  /**
   * `s` without its leading and trailing whitespace: the result is the
   * part of `s` that starts after the leading whitespace and is followed
   * only by whitespace, and it neither starts nor ends with whitespace.
   */
  function TrimSpace(s: string): (r: string)
    ensures r == "" <==> AllSpace(s)
    ensures r != "" ==> !IsSpace(r[0]) && !IsSpace(r[|r| - 1])
    ensures LeadingSpace(s) + |r| <= |s|
    ensures r == s[LeadingSpace(s)..LeadingSpace(s) + |r|]
    ensures AllSpace(s[LeadingSpace(s) + |r|..])
  {
    var start := LeadingSpace(s);
    var rest := s[start..];
    var r := rest[..|rest| - TrailingSpace(rest)];
    assert r == "" ==> AllSpace(s) by {
      if r == "" {
        assert start == |s|;
        assert s[..start] == s;
      }
    }
    assert r != "" ==> r[0] == rest[0];
    r
  }

  /**
   * The whitespace-separated fields of `s`: every field is a non-empty run
   * of non-whitespace characters, there are none exactly when `s` is all
   * whitespace, and together they hold every non-whitespace character of
   * `s` in order.
   */
  function Fields(s: string): (fs: seq<string>)
    ensures AllWords(fs)
    ensures fs == [] <==> AllSpace(s)
    ensures Concat(fs) == RemoveSpace(s)
    decreases |s|
  {
    var start := LeadingSpace(s);
    if start == |s| then
      RemoveSpaceOfAllSpace(s);
      []
    else
      var rest := s[start..];
      var n := WordLength(rest);
      var word, tail := rest[..n], Fields(rest[n..]);
      assert !IsSpace(rest[0]) by { assert rest[0] == s[start]; }
      assert !AllSpace(s) by { assert !IsSpace(s[start]); }
      FieldsStep(s, start, n);
      ConsWord(word, tail);
      [word] + tail
  }

  /** One more word in front of a list of words. */
  lemma ConsWord(word: string, tail: seq<string>)
    requires word != "" && NoSpace(word) && AllWords(tail)
    ensures AllWords([word] + tail)
    ensures Concat([word] + tail) == word + Concat(tail)
  {
    var fs := [word] + tail;
    assert fs[0] == word && fs[1..] == tail;
    forall i | 0 < i < |fs| ensures fs[i] != "" && NoSpace(fs[i]) {
      assert fs[i] == tail[i - 1];
    }
  }

  /** The non-whitespace characters of `s`, split at the first field. */
  lemma FieldsStep(s: string, start: nat, n: nat)
    requires start <= |s| && AllSpace(s[..start])
    requires n <= |s| - start && NoSpace(s[start..][..n])
    ensures s[start..][..n] + RemoveSpace(s[start..][n..]) == RemoveSpace(s)
  {
    var lead, rest := s[..start], s[start..];
    var word, tail := rest[..n], rest[n..];
    assert word + tail == rest;
    assert lead + rest == s;
    RemoveSpaceOfNoSpace(word);
    RemoveSpaceAppend(word, tail);
    RemoveSpaceOfAllSpace(lead);
    RemoveSpaceAppend(lead, rest);
  }

  /** The fields glued back together, without separators. */
  function Concat(fs: seq<string>): string {
    if fs == [] then "" else fs[0] + Concat(fs[1..])
  }

  /** The words separated by single spaces. */
  function Join(words: seq<string>): string {
    if |words| == 0 then ""
    else if |words| == 1 then words[0]
    else words[0] + " " + Join(words[1..])
  }

  /** Every element is a word in the sense of `Fields`: non-empty, without whitespace. */
  predicate AllWords(words: seq<string>) {
    forall i :: 0 <= i < |words| ==> words[i] != "" && NoSpace(words[i])
  }

  lemma {:induction false} RemoveSpaceAppend(a: string, b: string)
    ensures RemoveSpace(a + b) == RemoveSpace(a) + RemoveSpace(b)
  {
    if a == [] {
      assert a + b == b;
    } else {
      assert (a + b)[0] == a[0];
      assert (a + b)[1..] == a[1..] + b;
      RemoveSpaceAppend(a[1..], b);
    }
  }

  lemma {:induction false} RemoveSpaceOfAllSpace(s: string)
    requires AllSpace(s)
    ensures RemoveSpace(s) == []
  {
    if s != [] { RemoveSpaceOfAllSpace(s[1..]); }
  }

  lemma {:induction false} RemoveSpaceOfNoSpace(s: string)
    requires NoSpace(s)
    ensures RemoveSpace(s) == s
  {
    if s != [] { RemoveSpaceOfNoSpace(s[1..]); }
  }

  /** A word followed by nothing or by whitespace is read as one field. */
  lemma {:induction false} WordLengthOfWord(w: string, tail: string)
    requires NoSpace(w)
    requires tail == [] || IsSpace(tail[0])
    ensures WordLength(w + tail) == |w|
  {
    if w != [] {
      assert (w + tail)[1..] == w[1..] + tail;
      WordLengthOfWord(w[1..], tail);
    }
  }

  /** A word followed by whitespace (or nothing) and more text is the first field. */
  lemma FieldsOfWordThen(w: string, tail: string)
    requires w != "" && NoSpace(w)
    requires tail == [] || IsSpace(tail[0])
    ensures Fields(w + tail) == [w] + Fields(tail)
  {
    var s := w + tail;
    WordLengthOfWord(w, tail);
    assert s[0] == w[0];
    assert LeadingSpace(s) == 0;
    assert s[0..] == s;
    assert s[..|w|] == w && s[|w|..] == tail;
  }

  /** A word, a space and more text: the word is the first field. */
  lemma FieldsOfWordSpace(w: string, t: string)
    requires w != "" && NoSpace(w)
    ensures Fields(w + (" " + t)) == [w] + Fields(t)
  {
    FieldsOfWordThen(w, " " + t);
    FieldsAfterAllSpace(" ", t);
  }

  lemma JoinCons(words: seq<string>)
    requires |words| > 1
    ensures Join(words) == words[0] + (" " + Join(words[1..]))
  {
  }

  /** A single word is its own only field. */
  lemma FieldsOfWord(w: string)
    requires w != "" && NoSpace(w)
    ensures Fields(w) == [w]
  {
    assert w + [] == w;
    FieldsOfWordThen(w, []);
  }

  /** One more word in front: if the rest splits back, so does the whole. */
  lemma FieldsOfJoinStep(words: seq<string>)
    requires |words| > 1 && words[0] != "" && NoSpace(words[0])
    requires Fields(Join(words[1..])) == words[1..]
    ensures Fields(Join(words)) == words
  {
    JoinCons(words);
    FieldsOfWordSpace(words[0], Join(words[1..]));
    assert words == [words[0]] + words[1..];
  }

  /** Splitting words joined by single spaces gives back the words. */
  lemma {:induction false} FieldsOfJoin(words: seq<string>)
    requires AllWords(words)
    ensures Fields(Join(words)) == words
  {
    if |words| == 1 {
      FieldsOfWord(words[0]);
    } else if |words| > 1 {
      AllWordsTail(words);
      FieldsOfJoin(words[1..]);
      FieldsOfJoinStep(words);
    }
  }

  /**
   * The words with whitespace runs around and between them: `seps[0]`,
   * `words[0]`, `seps[1]`, ..., `words[n - 1]`, `seps[n]`.
   */
  function Interleave(seps: seq<string>, words: seq<string>): string
    requires |seps| == |words| + 1
    decreases |words|
  {
    if words == [] then seps[0]
    else seps[0] + words[0] + Interleave(seps[1..], words[1..])
  }

  /**
   * Separators for `n` words: every one is whitespace only, and the ones
   * between two words are not empty.
   */
  predicate Separators(seps: seq<string>, n: nat) {
    && |seps| == n + 1
    && (forall i :: 0 <= i < |seps| ==> AllSpace(seps[i]))
    && (forall i :: 0 < i < n ==> seps[i] != "")
  }

  /** Whitespace in front of a text adds to its leading whitespace. */
  lemma {:induction false} LeadingSpaceAppend(sp: string, t: string)
    requires AllSpace(sp)
    ensures LeadingSpace(sp + t) == |sp| + LeadingSpace(t)
    decreases |sp|
  {
    if sp == [] {
      assert sp + t == t;
    } else {
      assert (sp + t)[0] == sp[0];
      assert (sp + t)[1..] == sp[1..] + t;
      LeadingSpaceAppend(sp[1..], t);
    }
  }

  /** Whitespace in front of a text does not change its fields. */
  lemma FieldsAfterAllSpace(sp: string, t: string)
    requires AllSpace(sp)
    ensures Fields(sp + t) == Fields(t)
  {
    var s := sp + t;
    LeadingSpaceAppend(sp, t);
    assert s[LeadingSpace(s)..] == t[LeadingSpace(t)..];
  }

  /** Words after the first one have the same separators, less the first. */
  lemma SeparatorsTail(seps: seq<string>, n: nat)
    requires Separators(seps, n + 1)
    ensures Separators(seps[1..], n)
  {
    var rest := seps[1..];
    forall i | 0 <= i < |rest| ensures AllSpace(rest[i]) { assert rest[i] == seps[i + 1]; }
    forall i | 0 < i < n ensures rest[i] != "" { assert rest[i] == seps[i + 1]; }
  }

  /** Words after the first one are still words. */
  lemma AllWordsTail(words: seq<string>)
    requires |words| > 0 && AllWords(words)
    ensures AllWords(words[1..])
  {
    var rest := words[1..];
    forall i | 0 <= i < |rest| ensures rest[i] != "" && NoSpace(rest[i]) { assert rest[i] == words[i + 1]; }
  }

  /** What follows the first word is empty or starts with whitespace. */
  lemma InterleaveAfterWord(seps: seq<string>, words: seq<string>)
    requires |words| > 0 && Separators(seps, |words|)
    ensures var tail := Interleave(seps[1..], words[1..]);
            tail == [] || IsSpace(tail[0])
  {
    var restSeps, restWords := seps[1..], words[1..];
    assert AllSpace(seps[1]);
    if restWords != [] {
      assert seps[1] != "";
      var tail := Interleave(restSeps, restWords);
      assert tail == seps[1] + (restWords[0] + Interleave(restSeps[1..], restWords[1..]));
      assert tail[0] == seps[1][0];
    }
  }

  /** Whitespace, then a word, then whitespace or nothing: the word is the first field. */
  lemma FieldsOfSpaceWordThen(sp: string, w: string, tail: string)
    requires AllSpace(sp) && w != "" && NoSpace(w)
    requires tail == [] || IsSpace(tail[0])
    ensures Fields(sp + (w + tail)) == [w] + Fields(tail)
  {
    FieldsAfterAllSpace(sp, w + tail);
    FieldsOfWordThen(w, tail);
  }

  /**
   * The fields of any text made of words separated by whitespace runs are
   * those words, whatever the whitespace between, before and after them.
   */
  lemma {:induction false} FieldsOfInterleave(seps: seq<string>, words: seq<string>)
    requires AllWords(words) && Separators(seps, |words|)
    ensures Fields(Interleave(seps, words)) == words
    decreases |words|
  {
    if words == [] {
      assert AllSpace(seps[0]);
    } else {
      var restSeps, restWords := seps[1..], words[1..];
      AllWordsTail(words);
      SeparatorsTail(seps, |restWords|);
      InterleaveAfterWord(seps, words);
      var tail := Interleave(restSeps, restWords);
      assert Interleave(seps, words) == seps[0] + (words[0] + tail);
      FieldsOfSpaceWordThen(seps[0], words[0], tail);
      FieldsOfInterleave(restSeps, restWords);
      assert words == [words[0]] + restWords;
    }
  }

  /** The first and last characters of joined words. */
  lemma {:induction false} JoinEnds(words: seq<string>)
    requires |words| > 0
    requires AllWords(words)
    ensures var s := Join(words); s != "" && s[0] == words[0][0]
    ensures var s := Join(words); s[|s| - 1] == words[|words| - 1][|words[|words| - 1]| - 1]
  {
    if |words| > 1 {
      JoinEnds(words[1..]);
    }
  }

  /** Words joined by single spaces have nothing to trim. */
  lemma TrimJoin(words: seq<string>)
    requires |words| > 0
    requires AllWords(words)
    ensures TrimSpace(Join(words)) == Join(words)
  {
    var s := Join(words);
    JoinEnds(words);
    assert LeadingSpace(s) == 0;
    var r := TrimSpace(s);
    assert TrailingSpace(s) == 0;
  }
}
