/**
 The access-control list: glob patterns compiled to regular expressions, and first-match lookup
 over plugin rules before defaults. A compiled pattern is the sequence of regex pieces `_compile`
 emits; the matcher is the backtracking meaning of those pieces.
 */
module AccessRules {
  import opened Wrappers

  datatype Level = Viewer | Operator | Admin

  datatype Rule = Rule(path: string, level: Option<Level>, methods: Option<seq<string>>)

  // In order: ^, an escaped character, [^/]+, .*, /?, (?:/.*)? and $
  datatype Piece = Begin | Literal(c: char) | Segment | AnyText | OptSlash | OptSubtree | End

  // ---- compiling ----

  predicate EndsWith(s: string, suffix: string) {
    |s| >= |suffix| && s[|s| - |suffix|..] == suffix
  }

  const SUBTREE := "/**"

  function Stem(pattern: string): string
    requires EndsWith(pattern, SUBTREE)
  {
    pattern[..|pattern| - 3]
  }

  /** The pieces of the pattern's characters. */
  function Body(pattern: string): seq<Piece> {
    if pattern == "" then []
    else if |pattern| >= 2 && pattern[0] == '*' && pattern[1] == '*' then [AnyText] + Body(pattern[2..])
    else if pattern[0] == '*' then [Segment] + Body(pattern[1..])
    else [Literal(pattern[0])] + Body(pattern[1..])
  }

  // Drops a final "/?$".
  function WithoutTail(pieces: seq<Piece>): seq<Piece> {
    if |pieces| >= 2 && pieces[|pieces| - 2..] == [OptSlash, End] then pieces[..|pieces| - 2] else pieces
  }

  function Compiled(pattern: string): seq<Piece>
    decreases |pattern|
  {
    if EndsWith(pattern, SUBTREE) then WithoutTail(Compiled(Stem(pattern))) + [OptSubtree, End]
    else [Begin] + Body(pattern) + [OptSlash, End]
  }

  /** One turn of the loop: what is emitted at position i, and how far it moves on. */
  function Emit(pattern: string, i: nat): (r: (Piece, nat))
    requires i < |pattern|
  {
    if pattern[i] == '*' then
      if i + 1 < |pattern| && pattern[i + 1] == '*' then (AnyText, i + 2) else (Segment, i + 1)
    else (Literal(pattern[i]), i + 1)
  }

  lemma BodyFrom(pattern: string, i: nat)
    requires i < |pattern|
    ensures i < Emit(pattern, i).1 <= |pattern|
    ensures Body(pattern[i..]) == [Emit(pattern, i).0] + Body(pattern[Emit(pattern, i).1..])
  {
    var rest := pattern[i..];
    assert rest[Emit(pattern, i).1 - i..] == pattern[Emit(pattern, i).1..];
  }

  lemma BodyEmpty()
    ensures Body("") == []
  {
  }

  method CompileBody(pattern: string) returns (out: seq<Piece>)
    ensures out == Body(pattern)
  {
    hide Body, Emit;
    out := [];
    var i := 0;
    assert pattern[0..] == pattern;
    while i < |pattern|
      invariant 0 <= i <= |pattern|
      invariant out + Body(pattern[i..]) == Body(pattern)
    {
      BodyFrom(pattern, i);
      var (piece, next) := Emit(pattern, i);
      assert out + ([piece] + Body(pattern[next..])) == (out + [piece]) + Body(pattern[next..]);
      out := out + [piece];
      i := next;
    }
    BodyEmpty();
    assert pattern[i..] == "";
  }

  method Compile(pattern: string) returns (pieces: seq<Piece>)
    ensures pieces == Compiled(pattern)
    decreases |pattern|
  {
    if EndsWith(pattern, SUBTREE) {
      var stem := Compile(Stem(pattern));
      return WithoutTail(stem) + [OptSubtree, End];
    }
    var out := CompileBody(pattern);
    pieces := [Begin] + out + [OptSlash, End];
  }

  // ---- the regex text ----

  const SPECIAL := "()[]{}?*+-|^$\\.&~# \t\n\r"

  /** re.escape of one character. */
  function Escape(c: char): string {
    if c in SPECIAL || c == 11 as char || c == 12 as char then ['\\', c] else [c]
  }

  function Source(p: Piece): string {
    match p
    case Begin => "^"
    case Literal(c) => Escape(c)
    case Segment => "[^/]+"
    case AnyText => ".*"
    case OptSlash => "/?"
    case OptSubtree => "(?:/.*)?"
    case End => "$"
  }

  function Sources(pieces: seq<Piece>): string {
    if pieces == [] then "" else Sources(pieces[..|pieces| - 1]) + Source(pieces[|pieces| - 1])
  }

  /** Python s.removesuffix(suffix). */
  function RemoveSuffix(s: string, suffix: string): string {
    if EndsWith(s, suffix) then s[..|s| - |suffix|] else s
  }

  /** On compiled patterns, dropping the two pieces is what removesuffix("/?$") does to the regex text. */
  lemma TailIsSuffix(pattern: string)
    ensures Sources(WithoutTail(Compiled(pattern))) == RemoveSuffix(Sources(Compiled(pattern)), "/?$")
  {
    var pieces := Compiled(pattern);
    var n := |pieces|;
    CompiledEnds(pattern);
    assert pieces[n - 2..][0] == pieces[n - 2] && pieces[n - 2..][1] == pieces[n - 1] == End;
    assert pieces == pieces[..n - 2] + [pieces[n - 2], End];
    hide *;
    LastTwo(pieces[..n - 2], pieces[n - 2]);
  }

  /** The text of pieces that end in an optional slash or subtree and the end mark. */
  lemma LastTwo(front: seq<Piece>, last: Piece)
    requires last == OptSlash || last == OptSubtree
    ensures Sources(WithoutTail(front + [last, End])) == RemoveSuffix(Sources(front + [last, End]), "/?$")
  {
    var pieces := front + [last, End];
    assert pieces == front + [last] + [End];
    SourcesLast(front, last);
    SourcesLast(front + [last], End);
    TailDropped(front, last);
    hide Sources, WithoutTail;
    TextTail(Sources(front));
  }

  lemma TailDropped(front: seq<Piece>, last: Piece)
    ensures WithoutTail(front + [last, End]) == if last == OptSlash then front else front + [last, End]
  {
    var pieces := front + [last, End];
    assert pieces[|pieces| - 2..] == [last, End] && pieces[..|pieces| - 2] == front;
    assert [last, End][0] == last;
  }

  lemma TextTail(text: string)
    ensures RemoveSuffix(text + "/?" + "$", "/?$") == text
    ensures RemoveSuffix(text + "(?:/.*)?" + "$", "/?$") == text + "(?:/.*)?" + "$"
  {
    assert text + "/?" + "$" == text + "/?$";
    var other := text + "(?:/.*)?" + "$";
    assert other[|other| - 3] == ')' && "/?$"[0] == '/';
    assert other[|other| - 3..][0] == ')';
  }

  lemma SourcesLast(front: seq<Piece>, last: Piece)
    ensures Sources(front + [last]) == Sources(front) + Source(last)
  {
    assert (front + [last])[..|front|] == front;
  }

  // ---- matching ----

  predicate Lacks(s: string, i: nat, j: nat, c: char)
    requires i <= j <= |s|
  {
    forall k :: i <= k < j ==> s[k] != c
  }

  /** rx.match: the pieces match s from position i on. */
  predicate Matches(pieces: seq<Piece>, s: string, i: nat)
    requires i <= |s|
    decreases |pieces|
  {
    if pieces == [] then true
    else
      var rest := pieces[1..];
      match pieces[0]
      case Begin => i == 0 && Matches(rest, s, i)
      case Literal(c) => i < |s| && s[i] == c && Matches(rest, s, i + 1)
      case Segment => exists j :: i < j <= |s| && Lacks(s, i, j, '/') && Matches(rest, s, j)
      case AnyText => exists j :: i <= j <= |s| && Lacks(s, i, j, '\n') && Matches(rest, s, j)
      case OptSlash => Matches(rest, s, i) || (i < |s| && s[i] == '/' && Matches(rest, s, i + 1))
      case OptSubtree =>
        Matches(rest, s, i)
        || (i < |s| && s[i] == '/' && exists j :: i + 1 <= j <= |s| && Lacks(s, i + 1, j, '\n') && Matches(rest, s, j))
      case End => (i == |s| || (i + 1 == |s| && s[i] == '\n')) && Matches(rest, s, i)
  }

  predicate OneLine(s: string) {
    Lacks(s, 0, |s|, '\n')
  }

  // ---- the glob language, read off the pattern directly ----

  // The whole of s is spelled by the pattern: two stars any text, one star one or more non-slash characters.
  predicate GlobText(pattern: string, s: string)
    decreases |pattern|
  {
    if pattern == "" then s == ""
    else if |pattern| >= 2 && pattern[0] == '*' && pattern[1] == '*' then
      exists j :: 0 <= j <= |s| && GlobText(pattern[2..], s[j..])
    else if pattern[0] == '*' then
      exists j :: 1 <= j <= |s| && Lacks(s, 0, j, '/') && GlobText(pattern[1..], s[j..])
    else s != "" && s[0] == pattern[0] && GlobText(pattern[1..], s[1..])
  }

  // A final slash and two stars stand for the stem itself and everything below it.
  predicate Under(pattern: string, s: string)
    decreases |pattern|
  {
    if EndsWith(pattern, SUBTREE) then
      exists i :: 0 <= i <= |s| && (i == |s| || s[i] == '/') && Under(Stem(pattern), s[..i])
    else GlobText(pattern, s)
  }

  /** The documented meaning: the pattern, with an optional trailing slash. */
  predicate Glob(pattern: string, s: string) {
    || Under(pattern, s)
    || (!EndsWith(pattern, SUBTREE) && EndsWith(s, "/") && Under(pattern, s[..|s| - 1]))
  }

  // ---- compilation preserves meaning ----

  /** Some end j of the text spelled by the pattern from i lets the rest match. */
  ghost predicate Spells(pattern: string, s: string, i: nat, rest: seq<Piece>)
    requires i <= |s|
  {
    exists j :: i <= j <= |s| && GlobText(pattern, s[i..j]) && Matches(rest, s, j)
  }

  lemma {:induction false} BodyMatches(pattern: string, s: string, i: nat, rest: seq<Piece>)
    requires i <= |s| && OneLine(s)
    ensures Matches(Body(pattern) + rest, s, i) <==> Spells(pattern, s, i, rest)
    decreases |pattern|
  {
    if pattern == "" {
      assert Body(pattern) + rest == rest;
      assert s[i..i] == "";
    } else if |pattern| >= 2 && pattern[0] == '*' && pattern[1] == '*' {
      TwoStars(pattern, s, i, rest);
    } else if pattern[0] == '*' {
      OneStar(pattern, s, i, rest);
    } else {
      var next := pattern[1..];
      assert (Body(pattern) + rest)[1..] == Body(next) + rest;
      if i < |s| {
        BodyMatches(next, s, i + 1, rest);
      }
      forall j | i < j <= |s| ensures s[i..j][1..] == s[i + 1..j] {
      }
    }
  }

  lemma {:induction false} TwoStars(pattern: string, s: string, i: nat, rest: seq<Piece>)
    requires i <= |s| && OneLine(s)
    requires |pattern| >= 2 && pattern[0] == '*' && pattern[1] == '*'
    ensures Matches(Body(pattern) + rest, s, i) <==> Spells(pattern, s, i, rest)
    decreases |pattern| - 1
  {
    var next := pattern[2..];
    assert (Body(pattern) + rest)[1..] == Body(next) + rest;
    if Matches(Body(pattern) + rest, s, i) {
      var j :| i <= j <= |s| && Lacks(s, i, j, '\n') && Matches(Body(next) + rest, s, j);
      BodyMatches(next, s, j, rest);
      var k :| j <= k <= |s| && GlobText(next, s[j..k]) && Matches(rest, s, k);
      assert s[i..k][j - i..] == s[j..k];
      assert GlobText(pattern, s[i..k]);
    }
    if Spells(pattern, s, i, rest) {
      var k :| i <= k <= |s| && GlobText(pattern, s[i..k]) && Matches(rest, s, k);
      var j :| 0 <= j <= |s[i..k]| && GlobText(next, s[i..k][j..]);
      assert s[i..k][j..] == s[i + j..k];
      BodyMatches(next, s, i + j, rest);
      assert Lacks(s, i, i + j, '\n');
    }
  }

  lemma SegmentMatches(pieces: seq<Piece>, s: string, i: nat)
    requires i <= |s| && pieces != [] && pieces[0] == Segment
    ensures Matches(pieces, s, i) <==> exists j :: i < j <= |s| && Lacks(s, i, j, '/') && Matches(pieces[1..], s, j)
  {
  }

  lemma StarPieces(pattern: string, rest: seq<Piece>)
    requires pattern != "" && pattern[0] == '*' && !(|pattern| >= 2 && pattern[1] == '*')
    ensures var pieces := Body(pattern) + rest;
            pieces != [] && pieces[0] == Segment && pieces[1..] == Body(pattern[1..]) + rest
  {
  }

  lemma {:induction false} OneStar(pattern: string, s: string, i: nat, rest: seq<Piece>)
    requires i <= |s| && OneLine(s)
    requires pattern != "" && pattern[0] == '*' && !(|pattern| >= 2 && pattern[1] == '*')
    ensures Matches(Body(pattern) + rest, s, i) <==> Spells(pattern, s, i, rest)
    decreases |pattern|, 0
  {
    hide *;
    var next, pieces := pattern[1..], Body(pattern) + rest;
    StarPieces(pattern, rest);
    SegmentMatches(pieces, s, i);
    if Matches(pieces, s, i) {
      var j :| i < j <= |s| && Lacks(s, i, j, '/') && Matches(pieces[1..], s, j);
      BodyMatches(next, s, j, rest);
      StarForward(pattern, s, i, j, rest);
    }
    if Spells(pattern, s, i, rest) {
      var j := StarBackward(pattern, s, i, rest);
      BodyMatches(next, s, j, rest);
    }
  }

  lemma StarForward(pattern: string, s: string, i: nat, j: nat, rest: seq<Piece>)
    requires pattern != "" && pattern[0] == '*' && !(|pattern| >= 2 && pattern[1] == '*')
    requires i < j <= |s| && Lacks(s, i, j, '/') && Spells(pattern[1..], s, j, rest)
    ensures Spells(pattern, s, i, rest)
  {
    var k :| j <= k <= |s| && GlobText(pattern[1..], s[j..k]) && Matches(rest, s, k);
    assert s[i..k][j - i..] == s[j..k];
    assert Lacks(s[i..k], 0, j - i, '/');
    assert GlobText(pattern, s[i..k]);
  }

  lemma StarBackward(pattern: string, s: string, i: nat, rest: seq<Piece>) returns (j: nat)
    requires pattern != "" && pattern[0] == '*' && !(|pattern| >= 2 && pattern[1] == '*')
    requires i <= |s| && Spells(pattern, s, i, rest)
    ensures i < j <= |s| && Lacks(s, i, j, '/') && Spells(pattern[1..], s, j, rest)
  {
    var k :| i <= k <= |s| && GlobText(pattern, s[i..k]) && Matches(rest, s, k);
    var m :| 1 <= m <= |s[i..k]| && Lacks(s[i..k], 0, m, '/') && GlobText(pattern[1..], s[i..k][m..]);
    j := i + m;
    assert s[i..k][m..] == s[j..k];
    forall n | i <= n < j ensures s[n] != '/' {
      assert s[n] == s[i..k][n - i];
    }
  }

  /** What follows the stem of a subtree pattern. */
  lemma SubtreeTail(s: string, j: nat)
    requires j <= |s| && OneLine(s)
    ensures Matches([OptSubtree, End], s, j) <==> j == |s| || s[j] == '/'
  {
    assert [OptSubtree, End][1..] == [End];
    assert [End][1..] == [];
    assert Matches([End], s, |s|);
    if j < |s| && s[j] == '/' {
      assert Lacks(s, j + 1, |s|, '\n');
    }
  }

  lemma SlashTail(s: string, j: nat)
    requires j <= |s| && OneLine(s)
    ensures Matches([OptSlash, End], s, j) <==> j == |s| || (j + 1 == |s| && s[j] == '/')
  {
    assert [OptSlash, End][1..] == [End];
    assert [End][1..] == [];
  }

  /** Behind a final $, pieces that can match nothing at the end of the text change nothing. */
  lemma {:induction false} AfterEnd(pieces: seq<Piece>, rest: seq<Piece>, s: string, i: nat)
    requires pieces != [] && pieces[|pieces| - 1] == End
    requires i <= |s| && OneLine(s) && Matches(rest, s, |s|)
    ensures Matches(pieces + rest, s, i) <==> Matches(pieces, s, i)
    decreases |pieces|
  {
    assert (pieces + rest)[1..] == pieces[1..] + rest;
    if |pieces| == 1 {
      assert pieces[1..] + rest == rest;
    } else {
      forall j: nat | i <= j <= |s| ensures Matches(pieces[1..] + rest, s, j) <==> Matches(pieces[1..], s, j) {
        AfterEnd(pieces[1..], rest, s, j);
      }
    }
  }

  lemma CompiledEnds(pattern: string)
    ensures |Compiled(pattern)| >= 2
    ensures Compiled(pattern)[|Compiled(pattern)| - 2..] ==
            if EndsWith(pattern, SUBTREE) then [OptSubtree, End] else [OptSlash, End]
  {
  }

  /** Below a subtree is still below it. */
  lemma UnderClosed(pattern: string, s: string, i: nat)
    requires EndsWith(pattern, SUBTREE) && i < |s| && s[i] == '/' && Under(pattern, s[..i])
    ensures Under(pattern, s)
  {
    var k :| 0 <= k <= |s[..i]| && (k == |s[..i]| || s[..i][k] == '/') && Under(Stem(pattern), s[..i][..k]);
    assert s[..i][..k] == s[..k];
  }

  lemma {:induction false} SubtreeMatches(pattern: string, s: string)
    requires EndsWith(pattern, SUBTREE) && OneLine(s)
    ensures Matches(Compiled(pattern), s, 0) <==> Under(pattern, s)
    decreases |pattern|
  {
    var stem, tail := Stem(pattern), [OptSubtree, End];
    CompiledEnds(stem);
    if EndsWith(stem, SUBTREE) {
      assert Compiled(pattern) == Compiled(stem) + tail;
      SubtreeTail(s, |s|);
      AfterEnd(Compiled(stem), tail, s, 0);
      SubtreeMatches(stem, s);
      assert s[..|s|] == s;
      forall i: nat | i < |s| && s[i] == '/' && Under(stem, s[..i]) ensures Under(stem, s) {
        UnderClosed(stem, s, i);
      }
    } else {
      StemMatches(stem, s, tail);
      assert Compiled(pattern) == [Begin] + (Body(stem) + tail);
      forall j: nat | j <= |s| ensures Matches(tail, s, j) <==> j == |s| || s[j] == '/' {
        SubtreeTail(s, j);
      }
      forall j: nat | j <= |s| ensures s[0..j] == s[..j] {
      }
    }
  }

  lemma StemMatches(stem: string, s: string, tail: seq<Piece>)
    requires OneLine(s)
    ensures Matches([Begin] + (Body(stem) + tail), s, 0) <==> Spells(stem, s, 0, tail)
  {
    assert ([Begin] + (Body(stem) + tail))[1..] == Body(stem) + tail;
    BodyMatches(stem, s, 0, tail);
  }

  /** For every pattern and every newline-free path, the compiled regex matches iff the glob does. */
  lemma CompilationPreservesMeaning(pattern: string, s: string)
    requires OneLine(s)
    ensures Matches(Compiled(pattern), s, 0) <==> Glob(pattern, s)
  {
    if EndsWith(pattern, SUBTREE) {
      SubtreeMatches(pattern, s);
    } else {
      var tail := [OptSlash, End];
      StemMatches(pattern, s, tail);
      assert Compiled(pattern) == [Begin] + (Body(pattern) + tail);
      forall j: nat | j <= |s| ensures Matches(tail, s, j) <==> j == |s| || (j + 1 == |s| && s[j] == '/') {
        SlashTail(s, j);
      }
      assert s[0..|s|] == s;
      if s != "" {
        assert s[0..|s| - 1] == s[..|s| - 1];
        assert EndsWith(s, "/") <==> s[|s| - 1] == '/';
      }
    }
  }

  // ---- the rules as a whole ----

  const READ_METHODS := ["GET", "HEAD"]
  const WRITES := Some(["POST", "PUT", "DELETE", "PATCH"])

  function Upper(s: string): (r: string)
    ensures |r| == |s|
    ensures forall i :: 0 <= i < |s| ==> !('a' <= r[i] <= 'z') && (!('a' <= s[i] <= 'z') ==> r[i] == s[i])
  {
    if s == "" then "" else [if 'a' <= s[0] <= 'z' then s[0] - 'a' + 'A' else s[0]] + Upper(s[1..])
  }

  predicate ForMethod(rule: Rule, verb: string) {
    rule.methods == None || verb in rule.methods.value
  }

  /** What lookup asks of a rule: its compiled pattern matches. */
  predicate Covers(rule: Rule, verb: string, path: string) {
    ForMethod(rule, verb) && Matches(Compiled(rule.path), path, 0)
  }

  /** What the rule says: its glob matches. */
  predicate Applies(rule: Rule, verb: string, path: string) {
    ForMethod(rule, verb) && Glob(rule.path, path)
  }

  // (public, level)
  function Granted(level: Option<Level>): (bool, Level) {
    if level == None then (true, Viewer) else (false, level.value)
  }

  function Unruled(verb: string): (bool, Level) {
    (false, if verb in READ_METHODS || verb == "OPTIONS" then Viewer else Operator)
  }

  function Verdict(rules: seq<Rule>, verb: string, path: string): (bool, Level) {
    if rules == [] then Unruled(verb)
    else if Covers(rules[0], verb, path) then Granted(rules[0].level)
    else Verdict(rules[1..], verb, path)
  }

  lemma {:induction false} FirstCovering(rules: seq<Rule>, verb: string, path: string, k: nat)
    requires k <= |rules| && forall j :: 0 <= j < k ==> !Covers(rules[j], verb, path)
    ensures k < |rules| && Covers(rules[k], verb, path) ==> Verdict(rules, verb, path) == Granted(rules[k].level)
    ensures k == |rules| ==> Verdict(rules, verb, path) == Unruled(verb)
    decreases k
  {
    if k > 0 {
      FirstCovering(rules[1..], verb, path, k - 1);
    }
  }

  /** On newline-free paths the first rule whose glob applies decides, and with none the method alone does. */
  lemma FirstMatchWins(rules: seq<Rule>, verb: string, path: string, k: nat)
    requires OneLine(path)
    requires k <= |rules| && forall j :: 0 <= j < k ==> !Applies(rules[j], verb, path)
    ensures k < |rules| && Applies(rules[k], verb, path) ==> Verdict(rules, verb, path) == Granted(rules[k].level)
    ensures k == |rules| ==> Verdict(rules, verb, path) == Unruled(verb)
  {
    forall j | 0 <= j < |rules| ensures Covers(rules[j], verb, path) <==> Applies(rules[j], verb, path) {
      CompilationPreservesMeaning(rules[j].path, path);
    }
    FirstCovering(rules, verb, path, k);
  }

  datatype Entry = Entry(rule: Rule, rx: seq<Piece>)

  function RulesOf(entries: seq<Entry>): (r: seq<Rule>)
    ensures |r| == |entries| && forall i :: 0 <= i < |r| ==> r[i] == entries[i].rule
  {
    seq(|entries|, i requires 0 <= i < |entries| => entries[i].rule)
  }

  /** Ordered rules; the first match wins, plugin rules before defaults. */
  class Acl {
    var defaults: seq<Entry>
    var plugin: seq<Entry>

    ghost predicate Valid()
      reads this
    {
      forall e :: e in plugin || e in defaults ==> e.rx == Compiled(e.rule.path)
    }

    /** All rules in the order they are consulted. */
    ghost function Rules(): seq<Rule>
      reads this
    {
      RulesOf(plugin) + RulesOf(defaults)
    }

    constructor ()
      ensures Valid() && Rules() == []
    {
      defaults, plugin := [], [];
    }

    method AddDefault(rules: seq<Rule>)
      requires Valid()
      modifies this
      ensures Valid() && plugin == old(plugin)
      ensures Rules() == old(Rules()) + rules
    {
      var entries := CompileRules(rules);
      defaults := defaults + entries;
    }

    method AddPlugin(rules: seq<Rule>)
      requires Valid()
      modifies this
      ensures Valid() && defaults == old(defaults)
      ensures RulesOf(plugin) == old(RulesOf(plugin)) + rules
    {
      var entries := CompileRules(rules);
      plugin := plugin + entries;
    }

    method Lookup(verb: string, path: string) returns (public: bool, level: Level)
      requires Valid()
      ensures (public, level) == Verdict(Rules(), Upper(verb), path)
    {
      var upper := Upper(verb);
      var lists := [plugin, defaults];
      ghost var all := Rules();
      var i := 0;
      while i < 2
        invariant 0 <= i <= 2
        invariant i >= 1 ==> forall k :: 0 <= k < |plugin| ==> !Covers(all[k], upper, path)
        invariant i == 2 ==> forall k :: 0 <= k < |all| ==> !Covers(all[k], upper, path)
      {
        var rules := lists[i];
        ghost var base := if i == 0 then 0 else |plugin|;
        var j := 0;
        while j < |rules|
          invariant 0 <= j <= |rules|
          invariant forall k :: 0 <= k < base + j ==> !Covers(all[k], upper, path)
        {
          var rule, rx := rules[j].rule, rules[j].rx;
          assert all[base + j] == rule && rx == Compiled(rule.path) by {
            assert rules[j] in rules;
          }
          if ForMethod(rule, upper) && Matches(rx, path, 0) {
            FirstCovering(all, upper, path, base + j);
            if rule.level == None {
              return true, Viewer;
            }
            return false, rule.level.value;
          }
          j := j + 1;
        }
        i := i + 1;
      }
      FirstCovering(all, upper, path, |all|);
      return false, if upper in READ_METHODS || upper == "OPTIONS" then Viewer else Operator;
    }
  }

  method CompileRules(rules: seq<Rule>) returns (entries: seq<Entry>)
    ensures RulesOf(entries) == rules
    ensures forall e :: e in entries ==> e.rx == Compiled(e.rule.path)
  {
    entries := [];
    for i := 0 to |rules|
      invariant |entries| == i
      invariant forall k :: 0 <= k < i ==> entries[k] == Entry(rules[k], Compiled(rules[k].path))
    {
      var rx := Compile(rules[i].path);
      entries := entries + [Entry(rules[i], rx)];
    }
  }

  // ---- the default rules ----

  const OPEN_RULES := [Rule("/health", None, None), Rule("/auth/**", None, None)]

  const CLOSED_RULES := [
    Rule("/admin/**", Some(Admin), None),
    Rule("/settings", Some(Admin), WRITES),
    Rule("/inventory/**", Some(Admin), WRITES),
    Rule("/profiles/active", Some(Operator), Some(["DELETE"])),
    Rule("/profiles/*/activate", Some(Operator), Some(["POST"])),
    Rule("/profiles/**", Some(Admin), WRITES),
    Rule("/devices/connect", Some(Admin), Some(["POST"])),
    Rule("/devices/connected/*", Some(Admin), Some(["DELETE"])),
    Rule("/devices/bluetooth/**", Some(Admin), WRITES),
    Rule("/indi/load_driver", Some(Admin), WRITES),
    Rule("/indi/debug", Some(Admin), WRITES)]

  method DefaultAcl() returns (acl: Acl)
    ensures fresh(acl) && acl.Valid() && acl.Rules() == OPEN_RULES + CLOSED_RULES
  {
    acl := new Acl();
    acl.AddDefault(OPEN_RULES + CLOSED_RULES);
  }

  /** A pattern without stars spells itself and nothing else. */
  lemma {:induction false} LiteralGlob(pattern: string, s: string)
    requires '*' !in pattern
    ensures GlobText(pattern, s) <==> s == pattern
    decreases |pattern|
  {
    if pattern != "" && s != "" {
      LiteralGlob(pattern[1..], s[1..]);
      assert s == [s[0]] + s[1..] && pattern == [pattern[0]] + pattern[1..];
    }
  }

  /** /health with or without a slash, /auth, and everything below /auth. */
  predicate OpenPath(path: string) {
    || path == "/health" || path == "/health/"
    || path == "/auth" || "/auth/" <= path
  }

  lemma HealthGlob(path: string)
    ensures Glob("/health", path) <==> path == "/health" || path == "/health/"
  {
    LiteralGlob("/health", path);
    if path != "" {
      LiteralGlob("/health", path[..|path| - 1]);
      assert path == path[..|path| - 1] + [path[|path| - 1]];
    }
  }

  /** A subtree of a star-free stem is the stem and everything below it. */
  lemma SubtreeGlob(stem: string, path: string)
    requires '*' !in stem
    ensures Glob(stem + SUBTREE, path) <==> path == stem || stem + "/" <= path
  {
    var pattern := stem + SUBTREE;
    assert EndsWith(pattern, SUBTREE) && Stem(pattern) == stem;
    assert !EndsWith(stem, SUBTREE) by {
      assert |stem| >= 3 ==> stem[|stem| - 1] != '*';
    }
    hide GlobText;
    forall i: nat | i <= |path| ensures Under(stem, path[..i]) <==> path[..i] == stem {
      LiteralGlob(stem, path[..i]);
    }
    assert path[..|path|] == path;
    if stem + "/" <= path {
      assert path[..|stem|] == stem && path[|stem|] == (stem + "/")[|stem|];
    }
    if i: nat :| i < |path| && path[i] == '/' && path[..i] == stem {
      assert path[..i + 1] == stem + "/";
    }
  }

  lemma AuthGlob(path: string)
    ensures Glob("/auth/**", path) <==> path == "/auth" || "/auth/" <= path
  {
    assert "/auth" + SUBTREE == "/auth/**" && "/auth" + "/" == "/auth/";
    SubtreeGlob("/auth", path);
  }

  predicate AboveViewer(r: Rule) {
    r.level == Some(Operator) || r.level == Some(Admin)
  }

  lemma {:induction false} ClosedRulesNeedOperator(rules: seq<Rule>, verb: string, path: string)
    requires forall r :: r in rules ==> AboveViewer(r)
    ensures !Verdict(rules, verb, path).0
    ensures verb !in READ_METHODS && verb != "OPTIONS" ==> Verdict(rules, verb, path).1 != Viewer
    decreases |rules|
  {
    if rules != [] {
      assert AboveViewer(rules[0]);
      ClosedRulesNeedOperator(rules[1..], verb, path);
    }
  }

  lemma TwoOpenRules(a: Rule, b: Rule, rest: seq<Rule>, verb: string, path: string)
    requires a.level == None && a.methods == None && b.level == None && b.methods == None && OneLine(path)
    ensures Verdict([a, b] + rest, verb, path) ==
            if Glob(a.path, path) || Glob(b.path, path) then (true, Viewer) else Verdict(rest, verb, path)
  {
    var rules := [a, b] + rest;
    assert rules[1..][1..] == rest;
    hide Matches, Compiled, Glob;
    CompilationPreservesMeaning(a.path, path);
    CompilationPreservesMeaning(b.path, path);
  }

  lemma ClosedLevels()
    ensures forall r :: r in CLOSED_RULES ==> AboveViewer(r)
  {
    assert forall i :: 0 <= i < 11 ==> AboveViewer(CLOSED_RULES[i]);
  }

  lemma OpenHead(verb: string, path: string)
    requires OneLine(path)
    ensures Verdict(OPEN_RULES + CLOSED_RULES, verb, path) ==
            if OpenPath(path) then (true, Viewer) else Verdict(CLOSED_RULES, verb, path)
  {
    hide Verdict, Glob;
    TwoOpenRules(OPEN_RULES[0], OPEN_RULES[1], CLOSED_RULES, verb, path);
    HealthGlob(path);
    AuthGlob(path);
  }

  /** The default rules open /health and /auth to everyone, and no write elsewhere to less than an operator. */
  lemma DefaultWritesNeedOperator(verb: string, path: string)
    requires OneLine(path)
    ensures var (public, level) := Verdict(OPEN_RULES + CLOSED_RULES, verb, path);
            && (public <==> OpenPath(path))
            && (!public && verb !in READ_METHODS && verb != "OPTIONS" ==> level != Viewer)
  {
    hide *;
    ClosedLevels();
    ClosedRulesNeedOperator(CLOSED_RULES, verb, path);
    OpenHead(verb, path);
  }

  // ---- requests no rule covers ----

  /** When no rule applies, viewers may use exactly GET, HEAD and OPTIONS. */
  lemma UncoveredLevel(rules: seq<Rule>, verb: string, path: string)
    requires OneLine(path) && forall r :: r in rules ==> !Applies(r, verb, path)
    ensures !Verdict(rules, verb, path).0
    ensures Verdict(rules, verb, path).1 == Viewer <==> verb == "GET" || verb == "HEAD" || verb == "OPTIONS"
  {
    FirstMatchWins(rules, verb, path, |rules|);
  }

  lemma {:induction false} OtherMethods(rules: seq<Rule>, verb: string, path: string)
    requires forall r :: r in rules ==> !ForMethod(r, verb)
    ensures Verdict(rules, verb, path) == Unruled(verb)
    decreases |rules|
  {
    if rules != [] {
      assert rules[0] in rules;
      OtherMethods(rules[1..], verb, path);
    }
  }

  lemma NoRuleForOptions()
    ensures forall r :: r in CLOSED_RULES[1..] ==> !ForMethod(r, "OPTIONS")
  {
    assert forall i :: 1 <= i < 11 ==> !ForMethod(CLOSED_RULES[i], "OPTIONS");
  }

  /** With the default rules OPTIONS is open to viewers everywhere but below /admin, like GET and unlike a write. */
  lemma DefaultOptions(path: string)
    requires OneLine(path)
    ensures Verdict(OPEN_RULES + CLOSED_RULES, "OPTIONS", path) ==
            if OpenPath(path) then (true, Viewer)
            else if path == "/admin" || "/admin/" <= path then (false, Admin)
            else (false, Viewer)
  {
    OpenHead("OPTIONS", path);
    NoRuleForOptions();
    hide Verdict, Glob;
    OtherMethods(CLOSED_RULES[1..], "OPTIONS", path);
    AdminHead(path);
  }

  lemma ClosedHead()
    ensures CLOSED_RULES == [Rule("/admin/**", Some(Admin), None)] + CLOSED_RULES[1..]
  {
    assert CLOSED_RULES == [CLOSED_RULES[0]] + CLOSED_RULES[1..];
  }

  lemma HeadRule(rule: Rule, rest: seq<Rule>, verb: string, path: string)
    requires rule.methods == None && OneLine(path)
    ensures Verdict([rule] + rest, verb, path) ==
            if Glob(rule.path, path) then Granted(rule.level) else Verdict(rest, verb, path)
  {
    assert ([rule] + rest)[1..] == rest;
    hide Matches, Compiled, Glob;
    CompilationPreservesMeaning(rule.path, path);
  }

  lemma AdminHead(path: string)
    requires OneLine(path)
    ensures Verdict(CLOSED_RULES, "OPTIONS", path) ==
            if path == "/admin" || "/admin/" <= path then (false, Admin)
            else Verdict(CLOSED_RULES[1..], "OPTIONS", path)
  {
    ClosedHead();
    hide Verdict, Glob;
    HeadRule(Rule("/admin/**", Some(Admin), None), CLOSED_RULES[1..], "OPTIONS", path);
    assert "/admin" + SUBTREE == "/admin/**" && "/admin" + "/" == "/admin/";
    SubtreeGlob("/admin", path);
  }
}
