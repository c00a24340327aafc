/**
 * The file-name template of parse_profiles (src/patchtool.cc:246-249): every key of
 * the profile document names an output file, after `${INPUT_FILENAME}` is replaced
 * by the input file's base name and then `${PROFILE_FILENAME}` by the profile
 * document's base name. Each replacement is std::regex_replace with a pattern that
 * matches the token literally, so it rewrites every leftmost, non-overlapping
 * occurrence, scanning on after each one it replaces.
 */
module FilenameTemplate {

  const INPUT_TOKEN: string := "${INPUT_FILENAME}"
  const PROFILE_TOKEN: string := "${PROFILE_FILENAME}"

  /** Does token occur in s at position i? */
  predicate MatchAt(s: string, i: nat, token: string)
  {
    i + |token| <= |s| && s[i..i + |token|] == token
  }

  /** No occurrence of token in s starts before position n. */
  predicate NoMatchBefore(s: string, n: nat, token: string)
  {
    forall i :: 0 <= i < n ==> !MatchAt(s, i, token)
  }

  /** regex_replace(s, token, repl) with a literal token: each match, leftmost first, replaced. */
  function ReplaceAll(s: string, token: string, repl: string): string
    requires token != []
    decreases |s|
  {
    if |s| < |token| then s
    else if s[..|token|] == token then repl + ReplaceAll(s[|token|..], token, repl)
    else [s[0]] + ReplaceAll(s[1..], token, repl)
  }

  /** The two replacements in the order of the source's loop. */
  function Substituted(key: string, inputStem: string, profileStem: string): string
  {
    ReplaceAll(ReplaceAll(key, INPUT_TOKEN, inputStem), PROFILE_TOKEN, profileStem)
  }

  /**
   * The loop over the (token, replacement) pairs: `fname` is rewritten by each in
   * turn. The stems are the file names without directory and extension; taking
   * them from the paths is not part of this model.
   */
  method OutputName(key: string, inputStem: string, profileStem: string) returns (fname: string)
    ensures fname == Substituted(key, inputStem, profileStem)
  {
    var pairs := [(INPUT_TOKEN, inputStem), (PROFILE_TOKEN, profileStem)];
    fname := key;
    var k := 0;
    while k < |pairs|
      invariant 0 <= k <= |pairs|
      invariant k == 0 ==> fname == key
      invariant k == 1 ==> fname == ReplaceAll(key, INPUT_TOKEN, inputStem)
      invariant k == 2 ==> fname == Substituted(key, inputStem, profileStem)
    {
      var (token, replacement) := pairs[k];
      fname := ReplaceAll(fname, token, replacement);
      k := k + 1;
    }
  }

  // ---------------------------------------------------------------------------
  // Properties
  // ---------------------------------------------------------------------------

  /** An occurrence in the tail of s is one in s, one position on. */
  lemma MatchShift(s: string, i: nat, token: string)
    requires s != []
    ensures MatchAt(s[1..], i, token) <==> MatchAt(s, i + 1, token)
  {
    if i + |token| <= |s[1..]| {
      assert s[1..][i..i + |token|] == s[i + 1..i + 1 + |token|];
    }
  }

  /** A name without the token is left as it is. */
  lemma {:induction false} ReplaceAbsent(s: string, token: string, repl: string)
    requires token != [] && NoMatchBefore(s, |s|, token)
    ensures ReplaceAll(s, token, repl) == s
    decreases |s|
  {
    if |s| >= |token| {
      assert !MatchAt(s, 0, token);
      forall i | 0 <= i < |s[1..]|
        ensures !MatchAt(s[1..], i, token)
      {
        MatchShift(s, i, token);
      }
      ReplaceAbsent(s[1..], token, repl);
      assert [s[0]] + s[1..] == s;
    }
  }

  /**
   * The leftmost occurrence is replaced and the scan goes on after it: a name that
   * is `a`, the token and `b`, with no occurrence starting inside `a`, becomes `a`,
   * the replacement and `b` with its own occurrences replaced.
   */
  lemma {:induction false} ReplaceFirst(a: string, b: string, token: string, repl: string)
    requires token != [] && NoMatchBefore(a + (token + b), |a|, token)
    ensures ReplaceAll(a + (token + b), token, repl) == a + (repl + ReplaceAll(b, token, repl))
    decreases |a|
  {
    if a == [] {
      assert a + (token + b) == token + b;
      ReplacePrefix(b, token, repl);
    } else {
      var s := a + (token + b);
      var t := a[1..] + (token + b);
      assert !MatchAt(s, 0, token);
      assert s[1..] == t;
      forall i | 0 <= i < |a[1..]|
        ensures !MatchAt(t, i, token)
      {
        MatchShift(s, i, token);
      }
      ReplaceFirst(a[1..], b, token, repl);
      assert ReplaceAll(s, token, repl) == [s[0]] + ReplaceAll(t, token, repl);
      Cons(a, repl + ReplaceAll(b, token, repl));
    }
  }

  /** Putting the first character back. */
  lemma Cons(a: string, rest: string)
    requires a != []
    ensures [a[0]] + (a[1..] + rest) == a + rest
  {
    assert a == [a[0]] + a[1..];
  }

  /** A name opening with the token: the replacement, then the rest rewritten. */
  lemma ReplacePrefix(s: string, token: string, repl: string)
    requires token != []
    ensures ReplaceAll(token + s, token, repl) == repl + ReplaceAll(s, token, repl)
  {
    assert (token + s)[..|token|] == token;
    assert (token + s)[|token|..] == s;
  }

  /** "${INPUT_FILENAME}.txt" for input "game" and profile "en" names "game.txt". */
  lemma InputExample()
    ensures Substituted(INPUT_TOKEN + ".txt", "game", "en") == "game.txt"
  {
    ReplacePrefix(".txt", INPUT_TOKEN, "game");
  }

  /**
   * The passes are sequential: a token that the first replacement brings in is
   * rewritten by the second.
   */
  lemma PassesInOrder()
    ensures Substituted(INPUT_TOKEN, PROFILE_TOKEN, "en") == "en"
  {
    ReplacePrefix("", INPUT_TOKEN, PROFILE_TOKEN);
    assert INPUT_TOKEN + "" == INPUT_TOKEN;
    assert PROFILE_TOKEN + "" == PROFILE_TOKEN;
    ReplacePrefix("", PROFILE_TOKEN, "en");
  }
}
