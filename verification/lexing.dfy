/**
 * The text side of index.php: PHP's `trim`, and the two regular expressions
 * that read a route line, modelled on whitespace-separated tokens.
 *
 * PHP's own coercions (`is_numeric`, `(int)`, `(float)`) are taken as
 * parameters: nothing here depends on how they treat a given string.
 */
module Lexing {
  import opened Wrappers

  /** `is_numeric`, `(int)` and `(float)` of a string. */
  datatype Coercion = Coercion(isNumeric: string -> bool, toInt: string -> int, toFloat: string -> real)

  /** The characters `trim` strips by default: space, tab, LF, CR, NUL and vertical tab. */
  predicate IsTrimChar(c: char) {
    c == ' ' || c == '\t' || c == '\n' || c == '\r' || c == '\0' || c == '\U{B}'
  }

  /** The characters PCRE's `\s` matches: space, tab, LF, vertical tab, form feed and CR. */
  predicate IsSpace(c: char) {
    c == ' ' || c == '\t' || c == '\n' || c == '\U{B}' || c == '\U{C}' || c == '\r'
  }

  /** `[\-\d\.]`: the characters of a number in the route regexes. */
  predicate IsNumberChar(c: char) {
    c == '-' || c == '.' || '0' <= c <= '9'
  }

  /** `\w`: letters, digits and underscore. */
  predicate IsWordChar(c: char) {
    'a' <= c <= 'z' || 'A' <= c <= 'Z' || '0' <= c <= '9' || c == '_'
  }

  predicate IsNumberToken(t: string) {
    |t| > 0 && forall i :: 0 <= i < |t| ==> IsNumberChar(t[i])
  }

  predicate IsWordToken(t: string) {
    |t| > 0 && forall i :: 0 <= i < |t| ==> IsWordChar(t[i])
  }

  predicate NoSpace(t: string) {
    forall i :: 0 <= i < |t| ==> !IsSpace(t[i])
  }

  /** Drops the leading trim characters. */
  function TrimLeft(s: string): (r: string)
    ensures |r| <= |s| && r == s[|s| - |r|..]
    ensures forall i :: 0 <= i < |s| - |r| ==> IsTrimChar(s[i])
    ensures r == [] || !IsTrimChar(r[0])
    decreases |s|
  {
    if |s| > 0 && IsTrimChar(s[0]) then TrimLeft(s[1..]) else s
  }

  /** Drops the trailing trim characters. */
  function TrimRight(s: string): (r: string)
    ensures |r| <= |s| && r == s[..|r|]
    ensures forall i :: |r| <= i < |s| ==> IsTrimChar(s[i])
    ensures r == [] || !IsTrimChar(r[|r| - 1])
    decreases |s|
  {
    if |s| > 0 && IsTrimChar(s[|s| - 1]) then TrimRight(s[..|s| - 1]) else s
  }

  /** PHP's `trim($string)` with its default character list. */
  function Trim(s: string): (r: string)
    ensures |r| <= |s|
    ensures r == [] || (!IsTrimChar(r[0]) && !IsTrimChar(r[|r| - 1]))
  {
    TrimRight(TrimLeft(s))
  }

  /**
   * Trimming only cuts trim characters: the result is a slice `s[a..b]`
   * of the line, with nothing but trim characters before and after it.
   */
  lemma {:induction false} TrimCutsEnds(s: string)
    ensures exists a, b :: (0 <= a <= b <= |s| && Trim(s) == s[a..b] &&
      (forall i :: 0 <= i < a ==> IsTrimChar(s[i])) && (forall i :: b <= i < |s| ==> IsTrimChar(s[i])))
  {
    var left := TrimLeft(s);
    var r := TrimRight(left);
    var a := |s| - |left|;
    var b := a + |r|;
    assert r == s[a..b] by {
      assert left == s[a..];
      assert r == left[..|r|];
    }
    forall i | b <= i < |s|
      ensures IsTrimChar(s[i])
    {
      assert s[i] == left[i - a];
    }
  }

  /** Trimming a trimmed line changes nothing. */
  lemma {:induction false} TrimIdempotent(s: string)
    ensures Trim(Trim(s)) == Trim(s)
  {
    var t := Trim(s);
    assert TrimLeft(t) == t;
    assert TrimRight(t) == t;
  }

  /**
   * Cuts a line at every single whitespace character. Two whitespace
   * characters in a row leave an empty token between them, which is neither
   * a number nor a word: the route regexes only allow one `\s` between fields.
   */
  function Split(s: string): (ts: seq<string>)
    ensures |ts| >= 1
    decreases |s|
  {
    if s == [] then [""]
    else
      var rest := Split(s[1..]);
      if IsSpace(s[0]) then [""] + rest
      else [[s[0]] + rest[0]] + rest[1..]
  }

  /** No token holds a whitespace character. */
  lemma {:induction false} SplitHasNoSpace(s: string)
    ensures forall i :: 0 <= i < |Split(s)| ==> NoSpace(Split(s)[i])
    decreases |s|
  {
    if s != [] {
      SplitHasNoSpace(s[1..]);
    }
  }

  /** A line without whitespace is a single token. */
  lemma {:induction false} SplitWord(a: string)
    requires NoSpace(a)
    ensures Split(a) == [a]
  {
    SplitToken(a, []);
    assert a + [] == a;
    assert Split([]) == [""];
    assert a + "" == a;
  }

  /**
   * Any one whitespace character of `\s` (space, tab, LF, vertical tab, form
   * feed or CR) ends the token before it, and the line goes on after it.
   */
  lemma {:induction false} SplitAt(a: string, c: char, b: string)
    requires NoSpace(a) && IsSpace(c)
    ensures Split(a + [c] + b) == [a] + Split(b)
  {
    var cb := [c] + b;
    assert a + [c] + b == a + cb;
    SplitToken(a, cb);
    assert cb[1..] == b;
    assert Split(cb) == [""] + Split(b);
    assert a + "" == a;
  }

  /** The tokens written out with one space between consecutive ones. */
  function Join(ts: seq<string>): string
    requires |ts| >= 1
    decreases |ts|
  {
    if |ts| == 1 then ts[0] else ts[0] + " " + Join(ts[1..])
  }

  /** Splitting a line whose only whitespace is single spaces and joining it back gives the line. */
  lemma {:induction false} JoinSplit(s: string)
    requires forall i :: 0 <= i < |s| && IsSpace(s[i]) ==> s[i] == ' '
    ensures Join(Split(s)) == s
    decreases |s|
  {
    if s != [] {
      var rest := Split(s[1..]);
      assert Join(rest) == s[1..] by {
        assert forall i :: 0 <= i < |s[1..]| ==> s[1..][i] == s[i + 1];
        JoinSplit(s[1..]);
      }
      if IsSpace(s[0]) {
        assert Join(Split(s)) == " " + Join(rest);
      } else {
        JoinGlue([s[0]], rest);
      }
      assert s == [s[0]] + s[1..];
    }
  }

  /** Gluing text onto the first token glues it onto the joined line. */
  lemma {:induction false} JoinGlue(t: string, ts: seq<string>)
    requires |ts| >= 1
    ensures Join([t + ts[0]] + ts[1..]) == t + Join(ts)
  {
    var us := [t + ts[0]] + ts[1..];
    assert us[0] == t + ts[0];
    if |ts| > 1 {
      assert us[1..] == ts[1..];
      var tail := Join(ts[1..]);
      assert Join(us) == (t + ts[0]) + " " + tail;
      assert Join(ts) == ts[0] + " " + tail;
      assert (t + ts[0]) + " " + tail == t + (ts[0] + " " + tail);
    } else {
      assert |us| == 1;
    }
  }

  /** Joining tokens that hold no whitespace and splitting the result gives the tokens back. */
  lemma {:induction false} SplitJoin(ts: seq<string>)
    requires |ts| >= 1
    requires forall i :: 0 <= i < |ts| ==> NoSpace(ts[i])
    ensures Split(Join(ts)) == ts
    decreases |ts|, |ts[0]|
  {
    if |ts| == 1 {
      SplitToken(ts[0], []);
      assert ts[0] + [] == ts[0];
    } else {
      SplitJoin(ts[1..]);
      var tail := Join(ts[1..]);
      SplitToken(ts[0], " " + tail);
      assert Split(" " + tail) == [""] + Split(tail);
      assert Join(ts) == ts[0] + (" " + tail);
      assert ts[0] + "" == ts[0];
      assert [ts[0]] + ts[1..] == ts;
    }
  }

  /** A token without whitespace glues onto the first token of whatever follows it. */
  lemma {:induction false} SplitToken(t: string, rest: string)
    requires NoSpace(t)
    ensures Split(t + rest) == [t + Split(rest)[0]] + Split(rest)[1..]
    decreases |t|
  {
    var tail := Split(rest);
    if t == [] {
      assert t + rest == rest;
      assert t + tail[0] == tail[0];
      assert [tail[0]] + tail[1..] == tail;
    } else {
      SplitToken(t[1..], rest);
      assert (t + rest)[1..] == t[1..] + rest;
      assert !IsSpace((t + rest)[0]);
      assert [t[0]] + (t[1..] + tail[0]) == t + tail[0];
    }
  }

  /** Tokens `i` and `i + 1` are both numbers. */
  predicate NumberPairAt(ts: seq<string>, i: int) {
    0 <= i < |ts| - 1 && IsNumberToken(ts[i]) && IsNumberToken(ts[i + 1])
  }

  /**
   * The coordinates regex: the position of the first two adjacent number
   * tokens, or nothing when the line has none (the match fails).
   */
  function Coordinates(ts: seq<string>): (r: Option<nat>)
    ensures r.Some? ==> r.value < |ts| - 1
    decreases |ts|
  {
    if |ts| < 2 then None
    else if IsNumberToken(ts[0]) && IsNumberToken(ts[1]) then Some(0)
    else
      match Coordinates(ts[1..])
      case Some(i) => Some(i + 1)
      case None => None
  }

  /** The coordinates are the first pair of adjacent numbers, and there are none when the match fails. */
  lemma {:induction false} CoordinatesFirstPair(ts: seq<string>)
    ensures Coordinates(ts).Some? ==>
      NumberPairAt(ts, Coordinates(ts).value) && forall j :: 0 <= j < Coordinates(ts).value ==> !NumberPairAt(ts, j)
    ensures Coordinates(ts).None? ==> forall j :: !NumberPairAt(ts, j)
    decreases |ts|
  {
    if |ts| >= 2 && !(IsNumberToken(ts[0]) && IsNumberToken(ts[1])) {
      CoordinatesFirstPair(ts[1..]);
      assert forall j :: 1 <= j < |ts| - 1 ==> (NumberPairAt(ts, j) <==> NumberPairAt(ts[1..], j - 1));
    }
  }

  /** A command word and the number after it, as the commands regex captures them. */
  datatype Pair = Pair(word: string, number: string)

  /**
   * The commands regex with `preg_match_all`: scanning left to right from
   * token `i`, every word token that has whitespace before it and a number
   * token after it makes a pair, and the scan resumes after the pair.
   */
  function CommandPairs(ts: seq<string>, i: nat): (r: seq<Pair>)
    requires 1 <= i
    ensures forall k :: 0 <= k < |r| ==> IsWordToken(r[k].word) && IsNumberToken(r[k].number)
    decreases |ts| - i
  {
    if i + 1 >= |ts| then []
    else if IsWordToken(ts[i]) && IsNumberToken(ts[i + 1]) then [Pair(ts[i], ts[i + 1])] + CommandPairs(ts, i + 2)
    else CommandPairs(ts, i + 1)
  }

  /**
   * Where the scan of `CommandPairs` captures its pairs: positions from `i`
   * on, each a word token followed by a number token, increasing, and two
   * apart at least, so that no two pairs share a token.
   */
  function PairStarts(ts: seq<string>, i: nat): (js: seq<nat>)
    requires 1 <= i
    ensures forall k :: 0 <= k < |js| ==> i <= js[k] < |ts| - 1
    ensures forall k :: 0 <= k < |js| ==> IsWordToken(ts[js[k]]) && IsNumberToken(ts[js[k] + 1])
    ensures forall k :: 0 < k < |js| ==> js[k - 1] + 2 <= js[k]
    decreases |ts| - i
  {
    if i + 1 >= |ts| then []
    else if IsWordToken(ts[i]) && IsNumberToken(ts[i + 1]) then [i] + PairStarts(ts, i + 2)
    else PairStarts(ts, i + 1)
  }

  /** `r` holds, in order, the token at each position of `js` and the token right after it. */
  predicate TakenAt(ts: seq<string>, r: seq<Pair>, js: seq<nat>)
  {
    |r| == |js| &&
    forall k :: 0 <= k < |r| ==> js[k] + 1 < |ts| && r[k] == Pair(ts[js[k]], ts[js[k] + 1])
  }

  /** Capturing one more pair in front keeps `TakenAt`. */
  lemma {:induction false} TakenAtCons(ts: seq<string>, j: nat, r: seq<Pair>, js: seq<nat>)
    requires j + 1 < |ts| && TakenAt(ts, r, js)
    ensures TakenAt(ts, [Pair(ts[j], ts[j + 1])] + r, [j] + js)
  {
    var r', js' := [Pair(ts[j], ts[j + 1])] + r, [j] + js;
    forall k | 0 < k < |r'|
      ensures js'[k] + 1 < |ts| && r'[k] == Pair(ts[js'[k]], ts[js'[k] + 1])
    {
      assert r'[k] == r[k - 1] && js'[k] == js[k - 1];
    }
  }

  /** The pairs are the tokens at the capture positions and the tokens right after them. */
  lemma {:induction false} CommandPairsAt(ts: seq<string>, i: nat)
    requires 1 <= i
    ensures TakenAt(ts, CommandPairs(ts, i), PairStarts(ts, i))
    decreases |ts| - i
  {
    if i + 1 < |ts| {
      if IsWordToken(ts[i]) && IsNumberToken(ts[i + 1]) {
        CommandPairsAt(ts, i + 2);
        TakenAtCons(ts, i, CommandPairs(ts, i + 2), PairStarts(ts, i + 2));
      } else {
        CommandPairsAt(ts, i + 1);
      }
    }
  }

  /**
   * The scan misses nothing it passes: a word token followed by a number
   * token is captured, unless its word is the number of a captured pair.
   */
  lemma {:induction false} PairStartsComplete(ts: seq<string>, i: nat)
    requires 1 <= i
    ensures forall j :: i <= j < |ts| - 1 && IsWordToken(ts[j]) && IsNumberToken(ts[j + 1]) ==>
      j in PairStarts(ts, i) || j - 1 in PairStarts(ts, i)
    decreases |ts| - i
  {
    if i + 1 < |ts| {
      if IsWordToken(ts[i]) && IsNumberToken(ts[i + 1]) {
        PairStartsComplete(ts, i + 2);
      } else {
        PairStartsComplete(ts, i + 1);
      }
    }
  }

  /** The tokens of the pairs, in order. */
  function Flatten(ps: seq<Pair>): seq<string>
    decreases |ps|
  {
    if ps == [] then [] else [ps[0].word, ps[0].number] + Flatten(ps[1..])
  }

  /** A word that the coordinates regex cannot mistake for a number, such as `walk`. */
  predicate IsCommandWord(w: string) {
    IsWordToken(w) && !IsNumberToken(w)
  }

  predicate WellFormedPairs(ps: seq<Pair>) {
    forall k :: 0 <= k < |ps| ==> IsCommandWord(ps[k].word) && IsNumberToken(ps[k].number)
  }

  /** Flattening writes the first pair's two tokens, then the rest. */
  lemma FlattenStep(pre: seq<string>, ps: seq<Pair>)
    requires ps != []
    ensures pre + Flatten(ps) == (pre + [ps[0].word, ps[0].number]) + Flatten(ps[1..])
  {
    assert Flatten(ps) == [ps[0].word, ps[0].number] + Flatten(ps[1..]);
  }

  /** The pairs after the first of well-formed pairs are well-formed. */
  lemma WellFormedTail(ps: seq<Pair>)
    requires ps != [] && WellFormedPairs(ps)
    ensures IsWordToken(ps[0].word) && IsNumberToken(ps[0].number) && WellFormedPairs(ps[1..])
  {
    forall k | 0 <= k < |ps[1..]|
      ensures IsCommandWord(ps[1..][k].word) && IsNumberToken(ps[1..][k].number)
    {
      assert ps[1..][k] == ps[k + 1];
    }
  }

  /** Scanning well-formed pairs written one after the other finds exactly those pairs. */
  lemma {:induction false} CommandPairsOfFlatten(pre: seq<string>, ps: seq<Pair>)
    requires |pre| >= 1
    requires WellFormedPairs(ps)
    ensures CommandPairs(pre + Flatten(ps), |pre|) == ps
    decreases |ps|
  {
    var ts := pre + Flatten(ps);
    if ps != [] {
      var pre' := pre + [ps[0].word, ps[0].number];
      FlattenStep(pre, ps);
      WellFormedTail(ps);
      CommandPairsOfFlatten(pre', ps[1..]);
      assert ts[|pre|] == ps[0].word && ts[|pre| + 1] == ps[0].number by {
        assert ts[|pre|] == pre'[|pre|] && ts[|pre| + 1] == pre'[|pre| + 1];
      }
      assert CommandPairs(ts, |pre|) == [ps[0]] + CommandPairs(ts, |pre'|);
      assert [ps[0]] + ps[1..] == ps;
    } else {
      assert ts == pre;
    }
  }
}
