/** The glob-to-regex compiler behind every path rule (`PathMatcher.swift`).

    Three layers are kept apart: what a glob means (`GlobMeans`), the regex text the compiler
    writes (`RegexText`, produced by the loop in `RegexPattern`), and what that text means to the
    regex engine (`Parse`, then `FirstMatch`). The engine is ICU, whose `.` stops at line
    terminators and whose `$` also matches before a final line terminator. */
module PathMatcher {
  import opened Wrappers

  // ---------------------------------------------------------------- meaning of a glob

  /** A run of one star matches within a path segment, a longer run matches anything, `?` matches
      one character of a segment, and every other character matches itself. */
  ghost predicate GlobMeans(glob: string, path: string)
    decreases |glob|
  {
    if glob == "" then path == ""
    else if glob[0] == '*' then
      var n := StarRun(glob);
      exists k :: 0 <= k <= |path| && (n >= 2 || '/' !in path[..k]) && GlobMeans(glob[n..], path[k..])
    else
      && path != ""
      && (if glob[0] == '?' then path[0] != '/' else path[0] == glob[0])
      && GlobMeans(glob[1..], path[1..])
  }

  /** Length of the run of stars a string starts with. */
  function StarRun(glob: string): (n: nat)
    ensures n <= |glob|
    ensures glob != "" && glob[0] == '*' ==> n >= 1
  {
    if glob != "" && glob[0] == '*' then 1 + StarRun(glob[1..]) else 0
  }

  // ---------------------------------------------------------------- the compiler

  /** The characters the engine reads as syntax. */
  predicate IsMeta(c: char) {
    c in "*?+[(){}^$|\\."
  }

  /** Foundation's escaping: a backslash before the engine's syntax characters and before `/`. */
  function Escaped(c: char): string {
    if IsMeta(c) || c == '/' then ['\\', c] else [c]
  }

  /** Regex text for the part of a glob from its first character on. */
  function Emit(glob: string): string {
    if glob == "" then ""
    else if glob[0] == '*' then
      if |glob| > 1 && glob[1] == '*' then ".*" + Emit(glob[2..]) else "[^/]*" + Emit(glob[1..])
    else if glob[0] == '?' then "[^/]" + Emit(glob[1..])
    else Escaped(glob[0]) + Emit(glob[1..])
  }

  function RegexText(glob: string): string {
    "^" + Emit(glob) + "$"
  }

  method RegexPattern(glob: string) returns (output: string)
    ensures output == RegexText(glob)
  {
    output := "^";
    var index := 0;
    while index < |glob|
      invariant 0 <= index <= |glob|
      invariant output + Emit(glob[index..]) == "^" + Emit(glob)
    {
      var character := glob[index];
      ghost var rest := glob[index..];
      if character == '*' {
        var nextIsStar := index + 1 < |glob| && glob[index + 1] == '*';
        assert nextIsStar ==> rest[2..] == glob[index + 2..];
        assert rest[1..] == glob[index + 1..];
        output := output + (if nextIsStar then ".*" else "[^/]*");
        index := index + if nextIsStar then 2 else 1;
      } else if character == '?' {
        assert rest[1..] == glob[index + 1..];
        output := output + "[^/]";
        index := index + 1;
      } else {
        assert rest[1..] == glob[index + 1..];
        output := output + Escaped(character);
        index := index + 1;
      }
    }
    output := output + "$";
  }

  // ---------------------------------------------------------------- the regex engine

  datatype CharClass = AnyChar | Except(c: char) | Exactly(c: char)

  /** A pattern of this subset is a concatenation of anchors and possibly starred classes. */
  datatype Piece = Start | End | One(cls: CharClass) | Many(cls: CharClass)

  /** Reads one character class from the front of a pattern: the class and the text after it. */
  function ParseClass(text: string): Option<(CharClass, string)> {
    if text == "" then None
    else if text[0] == '.' then Some((AnyChar, text[1..]))
    else if text[0] == '\\' then
      if |text| >= 2 && (IsMeta(text[1]) || text[1] == '/') then Some((Exactly(text[1]), text[2..])) else None
    else if text[0] == '[' then
      if |text| >= 4 && text[1] == '^' && !IsMeta(text[2]) && text[2] != ']' && text[3] == ']'
      then Some((Except(text[2]), text[4..]))
      else None
    else if IsMeta(text[0]) then None
    else Some((Exactly(text[0]), text[1..]))
  }

  /** The pattern grammar: anchors, and classes each optionally followed by a star. */
  function Parse(text: string): Option<seq<Piece>>
    decreases |text|
  {
    if text == "" then Some([])
    else if text[0] == '^' || text[0] == '$' then
      match Parse(text[1..])
      case None => None
      case Some(rest) => Some([if text[0] == '^' then Start else End] + rest)
    else
      match ParseClass(text)
      case None => None
      case Some((cls, after)) =>
        if |after| >= |text| then None
        else
          var starred := after != "" && after[0] == '*';
          match Parse(if starred then after[1..] else after)
          case None => None
          case Some(rest) => Some([if starred then Many(cls) else One(cls)] + rest)
  }

  const LINE_TERMINATORS: set<char> := {'\n', '\U{000B}', '\U{000C}', '\r', '\U{0085}', '\U{2028}', '\U{2029}'}

  predicate Accepts(cls: CharClass, c: char) {
    match cls
    case AnyChar => c !in LINE_TERMINATORS
    case Except(d) => c != d
    case Exactly(d) => c == d
  }

  /** Where `$` matches: at the end, or before one final line terminator (CR LF counts as one). */
  predicate AtEnd(s: string, i: nat)
    requires i <= |s|
  {
    || i == |s|
    || (i == |s| - 1 && s[i] in LINE_TERMINATORS && !(s[i] == '\n' && i > 0 && s[i - 1] == '\r'))
    || (i == |s| - 2 && s[i] == '\r' && s[i + 1] == '\n')
  }

  predicate Spans(cls: CharClass, s: string, i: nat, j: nat)
    requires i <= j <= |s|
  {
    forall m :: i <= m < j ==> Accepts(cls, s[m])
  }

  /** The pieces match a stretch of `s` beginning at `i`. */
  ghost predicate MatchAt(ps: seq<Piece>, s: string, i: nat)
    requires i <= |s|
    decreases |ps|
  {
    if ps == [] then true
    else match ps[0]
      case Start => i == 0 && MatchAt(ps[1..], s, i)
      case End => AtEnd(s, i) && MatchAt(ps[1..], s, i)
      case One(cls) => i < |s| && Accepts(cls, s[i]) && MatchAt(ps[1..], s, i + 1)
      case Many(cls) =>
        exists j :: i <= j <= |s| && Spans(cls, s, i, j) && MatchAt(ps[1..], s, j)
  }

  /** `firstMatch(in:)` finds something: the search may begin anywhere. */
  ghost predicate FirstMatch(ps: seq<Piece>, s: string) {
    exists i :: 0 <= i <= |s| && MatchAt(ps, s, i)
  }

  /** What `matches` computes for one candidate path: compile, parse, search. */
  ghost predicate PathMatches(glob: string, path: string) {
    var parsed := Parse(RegexText(glob));
    parsed.Some? && FirstMatch(parsed.value, path)
  }

  // ---------------------------------------------------------------- the text parses back

  function Compile(glob: string): seq<Piece> {
    if glob == "" then []
    else if glob[0] == '*' then
      if |glob| > 1 && glob[1] == '*' then [Many(AnyChar)] + Compile(glob[2..])
      else [Many(Except('/'))] + Compile(glob[1..])
    else [One(if glob[0] == '?' then Except('/') else Exactly(glob[0]))] + Compile(glob[1..])
  }

  lemma EmitStart(glob: string)
    ensures Emit(glob) + "$" != "" && (Emit(glob) + "$")[0] != '*'
  {
  }

  lemma {:induction false} EmitParses(glob: string)
    ensures Parse(Emit(glob) + "$") == Some(Compile(glob) + [End])
    decreases |glob|
  {
    if glob == "" {
      var dollar := Emit(glob) + "$";
      assert dollar == "$" && dollar[1..] == "";
      assert Parse(dollar[1..]) == Some([]);
      assert Compile(glob) + [End] == [End] + [];
    } else {
      var rest := glob[if glob[0] == '*' && |glob| > 1 && glob[1] == '*' then 2 else 1..];
      EmitParses(rest);
      EmitStart(rest);
      PieceParses(glob, rest, Emit(rest) + "$");
      assert Compile(glob) + [End] == [Compile(glob)[0]] + (Compile(rest) + [End]);
    }
  }

  /** One step of the compiler puts one piece in front of whatever the rest parses to. */
  lemma PieceParses(glob: string, rest: string, tail: string)
    requires glob != ""
    requires rest == glob[if glob[0] == '*' && |glob| > 1 && glob[1] == '*' then 2 else 1..]
    requires tail == Emit(rest) + "$" && tail[0] != '*' && Parse(tail).Some?
    ensures Compile(glob) == [Compile(glob)[0]] + Compile(rest)
    ensures Parse(Emit(glob) + "$") == Some([Compile(glob)[0]] + Parse(tail).value)
  {
    if glob[0] == '*' {
      if |glob| > 1 && glob[1] == '*' { DoublePieceParses(glob, tail); } else { SinglePieceParses(glob, tail); }
    } else if glob[0] == '?' {
      ClassParses('/', tail);
      assert Emit(glob) + "$" == "[^/]" + tail;
      OneParses("[^/]" + tail, Except('/'), tail);
    } else {
      EscapeParses(glob[0], tail);
      assert Emit(glob) + "$" == Escaped(glob[0]) + tail;
      OneParses(Escaped(glob[0]) + tail, Exactly(glob[0]), tail);
    }
  }

  lemma DoublePieceParses(glob: string, tail: string)
    requires |glob| > 1 && glob[0] == '*' && glob[1] == '*'
    requires tail == Emit(glob[2..]) + "$" && Parse(tail).Some?
    ensures Parse(Emit(glob) + "$") == Some([Many(AnyChar)] + Parse(tail).value)
  {
    var starred := "*" + tail;
    DotParses(starred);
    StarParses("." + starred, AnyChar, starred, tail);
    assert Emit(glob) + "$" == "." + starred;
  }

  lemma EmitSingle(glob: string, tail: string)
    requires glob != "" && glob[0] == '*' && !(|glob| > 1 && glob[1] == '*')
    requires tail == Emit(glob[1..]) + "$"
    ensures Emit(glob) + "$" == "[^/]" + ("*" + tail)
  {
    var rest := Emit(glob[1..]);
    assert ("[^/]*" + rest) + "$" == "[^/]" + ("*" + (rest + "$"));
  }

  lemma SinglePieceParses(glob: string, tail: string)
    requires glob != "" && glob[0] == '*' && !(|glob| > 1 && glob[1] == '*')
    requires tail == Emit(glob[1..]) + "$" && Parse(tail).Some?
    ensures Parse(Emit(glob) + "$") == Some([Many(Except('/'))] + Parse(tail).value)
  {
    var starred := "*" + tail;
    var text := "[^/]" + starred;
    ClassParses('/', starred);
    StarParses(text, Except('/'), starred, tail);
    EmitSingle(glob, tail);
  }

  lemma DotParses(tail: string)
    ensures ParseClass("." + tail) == Some((AnyChar, tail))
  {
    assert ("." + tail)[1..] == tail;
  }

  lemma ClassParses(c: char, tail: string)
    requires !IsMeta(c) && c != ']'
    ensures ParseClass(['[', '^', c, ']'] + tail) == Some((Except(c), tail))
  {
    var text := ['[', '^', c, ']'] + tail;
    assert text[4..] == tail;
  }

  lemma EscapeParses(c: char, tail: string)
    requires c != '*' && c != '?'
    ensures ParseClass(Escaped(c) + tail) == Some((Exactly(c), tail))
    ensures (Escaped(c) + tail)[0] !in "^$"
  {
    var text := Escaped(c) + tail;
    assert text[|Escaped(c)|..] == tail;
  }

  lemma StarParses(text: string, cls: CharClass, after: string, tail: string)
    requires text != "" && text[0] !in "^$" && |after| < |text|
    requires ParseClass(text) == Some((cls, after))
    requires after != "" && after[0] == '*' && after[1..] == tail && Parse(tail).Some?
    ensures Parse(text) == Some([Many(cls)] + Parse(tail).value)
  {
  }

  lemma OneParses(text: string, cls: CharClass, tail: string)
    requires text != "" && text[0] !in "^$" && |tail| < |text|
    requires ParseClass(text) == Some((cls, tail))
    requires tail != "" && tail[0] != '*' && Parse(tail).Some?
    ensures Parse(text) == Some([One(cls)] + Parse(tail).value)
  {
  }

  /** The emitted text is always a valid pattern and reads back as the intended pieces. */
  lemma TextParsesBack(glob: string)
    ensures Parse(RegexText(glob)) == Some([Start] + Compile(glob) + [End])
  {
    EmitParses(glob);
    assert RegexText(glob)[1..] == Emit(glob) + "$";
    assert [Start] + Compile(glob) + [End] == [Start] + (Compile(glob) + [End]);
  }

  // ---------------------------------------------------------------- meaning is preserved

  predicate Avoids(s: string, stops: set<char>) {
    forall c :: c in s ==> c !in stops
  }

  /** `GlobMeans` by greedy pairs of stars, with `**` kept from crossing the characters of `stops`. */
  ghost predicate PairMeans(glob: string, path: string, stops: set<char>)
    decreases |glob|
  {
    if glob == "" then path == ""
    else if glob[0] == '*' then
      var double := |glob| > 1 && glob[1] == '*';
      exists k :: 0 <= k <= |path|
        && Avoids(path[..k], if double then stops else {'/'})
        && PairMeans(glob[if double then 2 else 1..], path[k..], stops)
    else
      && path != ""
      && (if glob[0] == '?' then path[0] != '/' else path[0] == glob[0])
      && PairMeans(glob[1..], path[1..], stops)
  }

  /** The glob, read by pairs within lines, covers `s` from `i` to a place where `$` matches. */
  ghost predicate Covers(glob: string, s: string, i: nat)
    requires i <= |s|
  {
    exists j :: i <= j <= |s| && AtEnd(s, j) && PairMeans(glob, s[i..j], LINE_TERMINATORS)
  }

  /** The compiled pieces accept exactly the stretches the pairwise meaning allows. */
  lemma {:induction false} PiecesMean(glob: string, s: string, i: nat)
    requires i <= |s|
    ensures MatchAt(Compile(glob) + [End], s, i) <==> Covers(glob, s, i)
    decreases |glob|
  {
    var ps := Compile(glob) + [End];
    if glob == "" {
      assert ps == [End] && ps[1..] == [];
      assert MatchAt(ps, s, i) == AtEnd(s, i);
      assert s[i..i] == "";
    } else {
      var double := glob[0] == '*' && |glob| > 1 && glob[1] == '*';
      var rest := glob[if double then 2 else 1..];
      var more := Compile(rest) + [End];
      forall k | i <= k <= |s| ensures MatchAt(more, s, k) <==> Covers(rest, s, k) {
        PiecesMean(rest, s, k);
      }
      if glob[0] == '*' {
        var cls := if double then AnyChar else Except('/');
        assert ps == [Many(cls)] + more;
        StarMeans(cls, more, glob, rest, s, i);
      } else {
        var cls := if glob[0] == '?' then Except('/') else Exactly(glob[0]);
        assert ps == [One(cls)] + more;
        CharMeans(cls, more, glob, s, i);
      }
    }
  }

  lemma CharMeans(cls: CharClass, more: seq<Piece>, glob: string, s: string, i: nat)
    requires i <= |s| && glob != "" && glob[0] != '*'
    requires cls == if glob[0] == '?' then Except('/') else Exactly(glob[0])
    requires forall k :: i <= k <= |s| ==> (MatchAt(more, s, k) <==> Covers(glob[1..], s, k))
    ensures MatchAt([One(cls)] + more, s, i) <==> Covers(glob, s, i)
  {
    assert ([One(cls)] + more)[1..] == more;
    if i < |s| {
      forall j | i < j <= |s| ensures s[i..j][1..] == s[i + 1..j] && s[i..j][0] == s[i] {}
    }
  }

  lemma StarMeans(cls: CharClass, more: seq<Piece>, glob: string, rest: string, s: string, i: nat)
    requires i <= |s| && glob != "" && glob[0] == '*'
    requires rest == glob[if |glob| > 1 && glob[1] == '*' then 2 else 1..]
    requires cls == if |glob| > 1 && glob[1] == '*' then AnyChar else Except('/')
    requires forall k :: i <= k <= |s| ==> (MatchAt(more, s, k) <==> Covers(rest, s, k))
    ensures MatchAt([Many(cls)] + more, s, i) <==> Covers(glob, s, i)
  {
    assert ([Many(cls)] + more)[1..] == more;
    if MatchAt([Many(cls)] + more, s, i) {
      var k :| i <= k <= |s| && Spans(cls, s, i, k) && MatchAt(more, s, k);
      StarCovers(cls, glob, rest, s, i, k);
    }
    if Covers(glob, s, i) {
      var k := CoverSplits(cls, glob, rest, s, i);
    }
  }

  lemma StarCovers(cls: CharClass, glob: string, rest: string, s: string, i: nat, k: nat)
    requires i <= k <= |s| && glob != "" && glob[0] == '*'
    requires rest == glob[if |glob| > 1 && glob[1] == '*' then 2 else 1..]
    requires cls == if |glob| > 1 && glob[1] == '*' then AnyChar else Except('/')
    requires Spans(cls, s, i, k) && Covers(rest, s, k)
    ensures Covers(glob, s, i)
  {
    var j :| k <= j <= |s| && AtEnd(s, j) && PairMeans(rest, s[k..j], LINE_TERMINATORS);
    assert s[i..j][k - i..] == s[k..j] && s[i..j][..k - i] == s[i..k];
    forall c | c in s[i..k] ensures Accepts(cls, c) {
      var m :| i <= m < k && s[m] == c;
    }
    StarExtends(glob, rest, s[i..j], k - i, LINE_TERMINATORS);
  }

  lemma CoverSplits(cls: CharClass, glob: string, rest: string, s: string, i: nat) returns (k: nat)
    requires i <= |s| && glob != "" && glob[0] == '*'
    requires rest == glob[if |glob| > 1 && glob[1] == '*' then 2 else 1..]
    requires cls == if |glob| > 1 && glob[1] == '*' then AnyChar else Except('/')
    requires Covers(glob, s, i)
    ensures i <= k <= |s| && Spans(cls, s, i, k) && Covers(rest, s, k)
  {
    var j :| i <= j <= |s| && AtEnd(s, j) && PairMeans(glob, s[i..j], LINE_TERMINATORS);
    var n := StarSplits(glob, rest, s[i..j], LINE_TERMINATORS);
    k := i + n;
    assert s[i..j][n..] == s[k..j];
    forall m | i <= m < k ensures Accepts(cls, s[m]) {
      assert s[m] == s[i..j][..n][m - i];
    }
  }

  lemma StarExtends(glob: string, rest: string, path: string, k: nat, stops: set<char>)
    requires glob != "" && glob[0] == '*' && k <= |path|
    requires rest == glob[if |glob| > 1 && glob[1] == '*' then 2 else 1..]
    requires Avoids(path[..k], if |glob| > 1 && glob[1] == '*' then stops else {'/'})
    requires PairMeans(rest, path[k..], stops)
    ensures PairMeans(glob, path, stops)
  {
  }

  lemma StarSplits(glob: string, rest: string, path: string, stops: set<char>) returns (k: nat)
    requires glob != "" && glob[0] == '*'
    requires rest == glob[if |glob| > 1 && glob[1] == '*' then 2 else 1..]
    requires PairMeans(glob, path, stops)
    ensures k <= |path| && PairMeans(rest, path[k..], stops)
    ensures Avoids(path[..k], if |glob| > 1 && glob[1] == '*' then stops else {'/'})
  {
    k :| 0 <= k <= |path| && Avoids(path[..k], if |glob| > 1 && glob[1] == '*' then stops else {'/'})
      && PairMeans(rest, path[k..], stops);
  }

  /** What the compiled regex accepts, for every glob and every path. */
  lemma EngineMeans(glob: string, path: string)
    ensures PathMatches(glob, path) <==> Covers(glob, path, 0)
  {
    TextParsesBack(glob);
    PiecesMean(glob, path, 0);
    var ps := [Start] + Compile(glob) + [End];
    assert ps[1..] == Compile(glob) + [End];
    assert forall i :: 0 <= i <= |path| && MatchAt(ps, path, i) ==> i == 0;
    assert FirstMatch(ps, path) <==> MatchAt(ps, path, 0);
  }

  /** Splitting a run of stars into pairs from the left says the same as reading the whole run. */
  lemma {:induction false} PairsAreRuns(glob: string, path: string)
    ensures PairMeans(glob, path, {}) <==> GlobMeans(glob, path)
    decreases |glob|
  {
    if glob != "" {
      var n := StarRun(glob);
      if glob[0] != '*' {
        if path != "" { PairsAreRuns(glob[1..], path[1..]); }
      } else if n == 1 {
        forall k | 0 <= k <= |path| { PairsAreRuns(glob[1..], path[k..]); }
      } else {
        assert glob[1..][1..] == glob[2..];
        forall k | 0 <= k <= |path| { PairsAreRuns(glob[2..], path[k..]); }
        if n > 2 { LongRun(glob, path); }
      }
    }
  }

  lemma LongRun(glob: string, path: string)
    requires glob != "" && glob[0] == '*' && StarRun(glob) > 2
    requires forall k :: 0 <= k <= |path| ==> (PairMeans(glob[2..], path[k..], {}) <==> GlobMeans(glob[2..], path[k..]))
    ensures PairMeans(glob, path, {}) <==> GlobMeans(glob, path)
  {
    var n, more := StarRun(glob), glob[2..];
    assert glob[1..][1..] == more;
    assert StarRun(more) == n - 2 && more[n - 2..] == glob[n..] && more[0] == '*';
    if k :| 0 <= k <= |path| && GlobMeans(more, path[k..]) {
      var rest := path[k..];
      var m :| 0 <= m <= |rest| && GlobMeans(more[n - 2..], rest[m..]);
      assert rest[m..] == path[k + m..];
      assert GlobMeans(glob, path);
    }
    if k :| 0 <= k <= |path| && GlobMeans(glob[n..], path[k..]) {
      var rest := path[k..];
      assert rest[0..] == rest && '/' !in rest[..0];
      assert GlobMeans(more, rest);
      assert Avoids(path[..k], {});
      assert PairMeans(glob, path, {});
    }
  }

  ghost predicate OneLine(path: string) {
    Avoids(path, LINE_TERMINATORS)
  }

  lemma {:induction false} StopsUnused(glob: string, path: string)
    requires OneLine(path)
    ensures PairMeans(glob, path, LINE_TERMINATORS) <==> PairMeans(glob, path, {})
    decreases |glob|
  {
    if glob != "" {
      if glob[0] == '*' {
        var rest := glob[if |glob| > 1 && glob[1] == '*' then 2 else 1..];
        forall k | 0 <= k <= |path|
          ensures Avoids(path[..k], LINE_TERMINATORS)
          ensures PairMeans(rest, path[k..], LINE_TERMINATORS) <==> PairMeans(rest, path[k..], {})
        {
          StopsUnused(rest, path[k..]);
        }
      } else if path != "" {
        StopsUnused(glob[1..], path[1..]);
      }
    }
  }

  /** The compiled matcher accepts a path without line terminators exactly when the glob means it. */
  lemma CompilerPreservesMeaning(glob: string, path: string)
    requires OneLine(path)
    ensures PathMatches(glob, path) <==> GlobMeans(glob, path)
  {
    EngineMeans(glob, path);
    PairsAreRuns(glob, path);
    StopsUnused(glob, path);
    assert path[0..|path|] == path;
    forall j | 0 <= j < |path| ensures !AtEnd(path, j) {
      assert path[j] in path;
    }
  }

  // ---------------------------------------------------------------- and only there

  /** A glob for exactly the strings with slashes where `q` has them. */
  function Shape(q: string): string {
    if q == "" then "" else [if q[0] == '/' then '/' else '?'] + Shape(q[1..])
  }

  lemma {:induction false} ShapeMeans(q: string, path: string)
    ensures PairMeans(Shape(q), q, LINE_TERMINATORS)
    ensures GlobMeans(Shape(q), path) ==> |path| == |q|
  {
    if q != "" {
      assert Shape(q)[1..] == Shape(q[1..]);
      ShapeMeans(q[1..], if path == "" then "" else path[1..]);
    }
  }

  lemma DoubleStarMeans(path: string)
    ensures GlobMeans("**", path)
    ensures PairMeans("**", path, LINE_TERMINATORS) <==> OneLine(path)
  {
    var glob, n := "**", |path|;
    assert StarRun(glob[1..][1..]) == 0 && StarRun(glob) == 2;
    assert glob[2..] == "" && path[n..] == "" && path[..n] == path;
    assert GlobMeans(glob[2..], path[n..]) && PairMeans(glob[2..], path[n..], LINE_TERMINATORS);
    forall k | 0 <= k <= n && PairMeans(glob[2..], path[k..], LINE_TERMINATORS) ensures k == n {}
  }

  lemma DoubleStar(path: string)
    ensures PathMatches("**", path) <==> exists j :: 0 <= j <= |path| && AtEnd(path, j) && OneLine(path[..j])
  {
    EngineMeans("**", path);
    forall j | 0 <= j <= |path| ensures PairMeans("**", path[0..j], LINE_TERMINATORS) <==> OneLine(path[..j]) {
      DoubleStarMeans(path[..j]);
      assert path[0..j] == path[..j];
    }
  }

  /** Exactly which paths the compiler is right about: those without a line terminator. */
  lemma MeaningPreservedExactly(path: string)
    ensures (forall glob :: PathMatches(glob, path) <==> GlobMeans(glob, path)) <==> OneLine(path)
  {
    if OneLine(path) {
      forall glob { CompilerPreservesMeaning(glob, path); }
    } else {
      DoubleStar(path);
      DoubleStarMeans(path);
      if j :| 0 <= j <= |path| && AtEnd(path, j) && OneLine(path[..j]) {
        assert j < |path| by { assert path[..|path|] == path; }
        ShapeDisagrees(path, j);
      } else {
        assert GlobMeans("**", path) && !PathMatches("**", path);
      }
    }
  }

  lemma ShapeDisagrees(path: string, j: nat)
    requires j < |path| && AtEnd(path, j)
    ensures PathMatches(Shape(path[..j]), path) && !GlobMeans(Shape(path[..j]), path)
  {
    ShapeMeans(path[..j], path);
    EngineMeans(Shape(path[..j]), path);
    assert path[0..j] == path[..j];
  }
}
