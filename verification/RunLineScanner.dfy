/**
  The scanner for run lines whose first token is a nested powershell/pwsh call: it
  collects the `$` tokens that the outer host would expand inside double quotes before
  the inner shell sees them.

  The loop counts runs of backticks and decides by parity.  Its specification is an
  automaton that reads one character at a time and remembers in a flag whether the next
  character is escaped.  Which characters are word characters is left to the caller
  (`word`), as the regular expression engine's Unicode tables decide it.
 */
module RunLineScanner {
  import opened Options

  /** str.isspace() for a single character. */
  predicate IsSpace(c: char) {
    var n := c as int;
    || 0x9 <= n <= 0xD || 0x1C <= n <= 0x20 || n == 0x85 || n == 0xA0 || n == 0x1680
    || 0x2000 <= n <= 0x200A || n == 0x2028 || n == 0x2029 || n == 0x202F || n == 0x205F || n == 0x3000
  }

  // ---------------------------------------------------------------------------
  // The nested interpreter at the start of the line
  // ---------------------------------------------------------------------------

  /** Case-insensitive match of one lower-case letter; U+017F folds to `s`. */
  predicate Folds(c: char, letter: char) {
    || c == letter
    || ('a' <= letter <= 'z' && c as int + 32 == letter as int)
    || (letter == 's' && c as int == 0x17F)
  }

  predicate FoldsTo(s: string, name: string) {
    |s| == |name| && forall i :: 0 <= i < |s| ==> Folds(s[i], name[i])
  }

  predicate EndsInName(token: string, name: string) {
    var cut := |token| - |name|;
    cut >= 0 && FoldsTo(token[cut..], name) && (cut == 0 || token[cut - 1] == '/' || token[cut - 1] == '\\')
  }

  predicate NamesInterpreter(token: string) {
    EndsInName(token, "powershell") || EndsInName(token, "pwsh")
    || EndsInName(token, "powershell.exe") || EndsInName(token, "pwsh.exe")
  }

  /** How many leading characters satisfy `p`. */
  function RunLength(s: string, p: char -> bool): (n: nat)
    ensures n <= |s|
    ensures forall i :: 0 <= i < n ==> p(s[i])
    ensures n < |s| ==> !p(s[n])
  {
    if s == [] || !p(s[0]) then 0 else 1 + RunLength(s[1..], p)
  }

  /** Where the match of a leading nested-interpreter token ends. */
  function NestedInterpreterEnd(line: string): (end: Option<nat>)
    ensures end.Some? ==> end.value <= |line| && (end.value < |line| ==> IsSpace(line[end.value]))
  {
    var start := RunLength(line, IsSpace);
    var rest := line[start..];
    if rest != [] && rest[0] == '"' then
      var body := RunLength(rest[1..], c => c != '"');
      var end := start + body + 2;
      if body < |rest| - 1 && NamesInterpreter(rest[1..1 + body]) && (end == |line| || IsSpace(line[end]))
      then Some(end) else None
    else
      var n := RunLength(rest, c => !IsSpace(c));
      if '"' !in rest[..n] && NamesInterpreter(rest[..n]) then Some(start + n) else None
  }

  // ---------------------------------------------------------------------------
  // The expandable token
  // ---------------------------------------------------------------------------

  predicate StartsName(c: char) {
    'A' <= c <= 'Z' || 'a' <= c <= 'z' || c == '_' || c == '?' || c == '^' || c == '$'
  }

  /** The length of the expandable token at the front of `s`, which starts with `$`. */
  function MatchToken(s: string, word: char -> bool): (n: Option<nat>)
    requires s != [] && s[0] == '$'
    ensures n.Some? ==> 2 <= n.value <= |s|
  {
    if |s| == 1 then None
    else if s[1] == '{' then
      var body := RunLength(s[2..], c => c != '}');
      if body < |s| - 2 then Some(body + 3) else None
    else if s[1] == '(' then Some(2)
    else if StartsName(s[1]) then Some(2 + RunLength(s[2..], c => word(c) || c == ':'))
    else None
  }

  // ---------------------------------------------------------------------------
  // The automaton
  // ---------------------------------------------------------------------------

  datatype Quote = Outside | Single | Double(escaped: bool)

  /** A standalone `--%`: white space (or the start) before it, white space (or the end) behind it. */
  predicate IsStop(afterSpace: bool, s: string) {
    afterSpace && |s| >= 3 && s[..3] == "--%" && (|s| == 3 || IsSpace(s[3]))
  }

  /** The tokens found in `s` when the automaton enters it in state `q`. */
  function Scan(afterSpace: bool, s: string, q: Quote, word: char -> bool): seq<string>
    decreases |s|
  {
    if s == [] then []
    else
      match q
      case Single => Scan(IsSpace(s[0]), s[1..], if s[0] == '\'' then Outside else Single, word)
      case Double(true) => Scan(IsSpace(s[0]), s[1..], Double(false), word)
      case Double(false) =>
        if s[0] == '$' && MatchToken(s, word).Some? then
          var n := MatchToken(s, word).value;
          [s[..n]] + Scan(false, s[n..], q, word)
        else
          Scan(IsSpace(s[0]), s[1..],
               if s[0] == '`' then Double(true) else if s[0] == '"' then Outside else q, word)
      case Outside =>
        if IsStop(afterSpace, s) then []
        else
          Scan(IsSpace(s[0]), s[1..],
               if s[0] == '\'' then Single else if s[0] == '"' then Double(false) else Outside, word)
  }

  /** What `_ps_double_evaluated_tokens` has to return. */
  function Tokens(line: string, word: char -> bool): seq<string> {
    match NestedInterpreterEnd(line)
    case None => []
    case Some(end) => Scan(true, line[end..], Outside, word)
  }

  // ---------------------------------------------------------------------------
  // The loop
  // ---------------------------------------------------------------------------

  /** The tokens still to come when the automaton stands at index `i` of `rest`. */
  function From(rest: string, i: nat, q: Quote, word: char -> bool): seq<string>
    requires i <= |rest|
  {
    Scan(i == 0 || IsSpace(rest[i - 1]), rest[i..], q, word)
  }

  /** Inside quotes the white-space flag has no influence. */
  lemma FlagMattersOutsideOnly(f: bool, g: bool, s: string, q: Quote, word: char -> bool)
    requires !q.Outside?
    ensures Scan(f, s, q, word) == Scan(g, s, q, word)
  {
  }

  predicate StopsAt(rest: string, i: nat) {
    && i + 3 <= |rest| && rest[i..i + 3] == "--%"
    && (i == 0 || IsSpace(rest[i - 1])) && (i + 3 == |rest| || IsSpace(rest[i + 3]))
  }

  /** One step of the automaton outside double quotes, by index. */
  lemma FromPlain(rest: string, i: nat, q: Quote, word: char -> bool)
    requires i < |rest| && !q.Double?
    ensures q == Outside && StopsAt(rest, i) ==> From(rest, i, q, word) == []
    ensures !(q == Outside && StopsAt(rest, i)) ==>
      From(rest, i, q, word) == From(rest, i + 1,
        if rest[i] == '\'' then (if q.Single? then Outside else Single)
        else if rest[i] == '"' && q.Outside? then Double(false) else q, word)
  {
    var s := rest[i..];
    assert s[1..] == rest[i + 1..];
    if |s| >= 3 { assert s[..3] == rest[i..i + 3]; }
  }

  lemma FromToken(rest: string, i: nat, n: nat, word: char -> bool)
    requires i < |rest| && rest[i] == '$' && MatchToken(rest[i..], word) == Some(n)
    ensures From(rest, i, Double(false), word) == [rest[i..i + n]] + From(rest, i + n, Double(false), word)
  {
    var s := rest[i..];
    assert s[..n] == rest[i..i + n] && s[n..] == rest[i + n..];
    FlagMattersOutsideOnly(false, IsSpace(rest[i + n - 1]), rest[i + n..], Double(false), word);
  }

  lemma FromChar(rest: string, i: nat, escaped: bool, word: char -> bool)
    requires i < |rest| && (escaped || rest[i] != '$' || MatchToken(rest[i..], word).None?)
    ensures From(rest, i, Double(escaped), word) == From(rest, i + 1,
        if escaped then Double(false) else if rest[i] == '`' then Double(true)
        else if rest[i] == '"' then Outside else Double(false), word)
  {
    assert rest[i..][1..] == rest[i + 1..];
  }

  lemma FromBacktick(rest: string, i: nat, escaped: bool, word: char -> bool)
    requires i < |rest| && rest[i] == '`'
    ensures From(rest, i, Double(escaped), word) == From(rest, i + 1, Double(!escaped), word)
  {
    FromChar(rest, i, escaped, word);
  }

  /** An even run of backticks escapes itself, an odd one escapes the character behind it. */
  lemma {:induction false} BacktickParity(rest: string, i: nat, j: nat, e: bool, word: char -> bool)
    requires i <= j <= |rest| && forall k :: i <= k < j ==> rest[k] == '`'
    ensures From(rest, i, Double(e), word) == From(rest, j, Double(if (j - i) % 2 == 0 then e else !e), word)
    decreases j - i
  {
    if i < j {
      FromBacktick(rest, i, e, word);
      BacktickParity(rest, i + 1, j, !e, word);
    }
  }

  /** The loop body inside double quotes: a backtick run, a closing quote, a token or one plain character. */
  method StepInDouble(tokens: seq<string>, rest: string, i: nat, word: char -> bool)
    returns (more: seq<string>, next: nat, state: Quote)
    requires i < |rest|
    ensures i < next <= |rest| && state != Double(true)
    ensures tokens + From(rest, i, Double(false), word) == more + From(rest, next, state, word)
  {
    more, next, state := tokens, i, Double(false);
    if rest[i] == '`' {
      while next < |rest| && rest[next] == '`'
        invariant i <= next <= |rest|
        invariant forall k :: i <= k < next ==> rest[k] == '`'
      {
        next := next + 1;
      }
      var escaped := (next - i) % 2 == 1;
      BacktickParity(rest, i, next, false, word);
      if next < |rest| && (rest[next] == '"' || rest[next] == '$') {
        if escaped {
          FromChar(rest, next, true, word);
          next := next + 1;
        } else if rest[next] == '"' {
          FromChar(rest, next, false, word);
          state := Outside;
          next := next + 1;
        } else {
          more, next := StepAtDollar(tokens, rest, next, word);
        }
      } else if next < |rest| {
        FromChar(rest, next, true, word);
        FromChar(rest, next, false, word);
      }
    } else if rest[i] == '"' {
      FromChar(rest, i, false, word);
      state := Outside;
      next := i + 1;
    } else if rest[i] == '$' {
      more, next := StepAtDollar(tokens, rest, i, word);
    } else {
      FromChar(rest, i, false, word);
      next := i + 1;
    }
  }

  lemma Reassociate(tokens: seq<string>, x: string, later: seq<string>)
    ensures tokens + ([x] + later) == tokens + [x] + later
  {
  }

  method StepAtDollar(tokens: seq<string>, rest: string, i: nat, word: char -> bool)
    returns (more: seq<string>, next: nat)
    requires i < |rest| && rest[i] == '$'
    ensures i < next <= |rest|
    ensures tokens + From(rest, i, Double(false), word) == more + From(rest, next, Double(false), word)
  {
    var m := MatchToken(rest[i..], word);
    if m.Some? {
      FromToken(rest, i, m.value, word);
      more, next := tokens + [rest[i..i + m.value]], i + m.value;
      Reassociate(tokens, rest[i..i + m.value], From(rest, next, Double(false), word));
    } else {
      FromChar(rest, i, false, word);
      more, next := tokens, i + 1;
    }
  }

  /** The loop body outside double quotes; `stop` is the break at a standalone `--%`. */
  method StepOutsideDouble(rest: string, i: nat, state: Quote, ghost word: char -> bool)
    returns (stop: bool, after: Quote)
    requires i < |rest| && !state.Double?
    ensures after != Double(true)
    ensures stop ==> From(rest, i, state, word) == []
    ensures !stop ==> From(rest, i, state, word) == From(rest, i + 1, after, word)
  {
    FromPlain(rest, i, state, word);
    stop, after := false, state;
    var ch := rest[i];
    if state.Single? {
      if ch == '\'' { after := Outside; }
    } else if ch == '\'' {
      after := Single;
    } else if ch == '"' {
      after := Double(false);
    } else if i + 3 <= |rest| && rest[i..i + 3] == "--%" {
      var beforeOk := i == 0 || IsSpace(rest[i - 1]);
      var afterOk := i + 3 >= |rest| || IsSpace(rest[i + 3]);
      stop := beforeOk && afterOk;
    }
  }

  /** `_ps_double_evaluated_tokens`: the loop finds exactly what the automaton finds. */
  method DoubleEvaluatedTokens(line: string, word: char -> bool) returns (tokens: seq<string>)
    ensures tokens == Tokens(line, word)
  {
    var end := NestedInterpreterEnd(line);
    if end.None? {
      return [];
    }
    var rest := line[end.value..];
    assert rest[0..] == rest;
    tokens := [];
    var state, i, stop := Outside, 0, false;    // at the loop head the escape flag is always down
    while i < |rest| && !stop
      invariant i <= |rest| && state != Double(true)
      invariant tokens + (if stop then [] else From(rest, i, state, word)) == From(rest, 0, Outside, word)
      decreases |rest| - i, !stop
    {
      if state.Double? {
        tokens, i, state := StepInDouble(tokens, rest, i, word);
      } else {
        stop, state := StepOutsideDouble(rest, i, state, word);
        if !stop { i := i + 1; }
      }
    }
  }

  // ---------------------------------------------------------------------------
  // What the three escapes guarantee
  // ---------------------------------------------------------------------------

  predicate IsSpecial(c: char) {
    c == '`' || c == '"' || c == '$'
  }

  /** A backtick in front of every backtick, double quote and dollar sign. */
  function BacktickEscape(s: string): string {
    if s == [] then []
    else (if IsSpecial(s[0]) then ['`', s[0]] else [s[0]]) + BacktickEscape(s[1..])
  }

  lemma EscapedPairIsInert(f: bool, c: char, rest: string, word: char -> bool)
    ensures Scan(f, ['`', c] + rest, Double(false), word) == Scan(f, rest, Double(false), word)
  {
    var text := ['`', c] + rest;
    assert text[1..] == [c] + rest && text[1..][1..] == rest;
    FlagMattersOutsideOnly(IsSpace(c), f, rest, Double(false), word);
  }

  lemma PlainCharIsInert(f: bool, c: char, rest: string, word: char -> bool)
    requires !IsSpecial(c)
    ensures Scan(f, [c] + rest, Double(false), word) == Scan(f, rest, Double(false), word)
  {
    assert ([c] + rest)[1..] == rest;
    FlagMattersOutsideOnly(IsSpace(c), f, rest, Double(false), word);
  }

  lemma {:induction false} EscapedTextIsInert(f: bool, s: string, tail: string, word: char -> bool)
    ensures Scan(f, BacktickEscape(s) + tail, Double(false), word) == Scan(f, tail, Double(false), word)
    decreases |s|
  {
    if s == [] {
      assert BacktickEscape(s) + tail == tail;
    } else {
      var rest := BacktickEscape(s[1..]) + tail;
      if IsSpecial(s[0]) {
        assert BacktickEscape(s) + tail == ['`', s[0]] + rest;
        EscapedPairIsInert(f, s[0], rest, word);
      } else {
        assert BacktickEscape(s) + tail == [s[0]] + rest;
        PlainCharIsInert(f, s[0], rest, word);
      }
      EscapedTextIsInert(f, s[1..], tail, word);
    }
  }

  /** Whatever text is backtick-escaped, its double-quoted form contributes no token and closes again. */
  lemma EscapedArgumentIsInert(f: bool, s: string, tail: string, word: char -> bool)
    ensures Scan(f, "\"" + BacktickEscape(s) + "\"" + tail, Outside, word) == Scan(false, tail, Outside, word)
  {
    var inner := BacktickEscape(s) + ("\"" + tail);
    var text := "\"" + BacktickEscape(s) + "\"" + tail;
    assert text[1..] == inner;
    EscapedTextIsInert(false, s, "\"" + tail, word);
    assert ("\"" + tail)[1..] == tail;
  }

  lemma {:induction false} SingleQuotedTextIsInert(f: bool, s: string, tail: string, word: char -> bool)
    requires '\'' !in s
    ensures Scan(f, s + tail, Single, word) == Scan(f, tail, Single, word)
    decreases |s|
  {
    if s == [] {
      assert s + tail == tail;
    } else {
      assert (s + tail)[1..] == s[1..] + tail;
      SingleQuotedTextIsInert(f, s[1..], tail, word);
      FlagMattersOutsideOnly(IsSpace(s[0]), f, s[1..] + tail, Single, word);
    }
  }

  /** Text without a single quote contributes no token in single quotes. */
  lemma SingleQuotedArgumentIsInert(f: bool, s: string, tail: string, word: char -> bool)
    requires '\'' !in s
    ensures Scan(f, "'" + s + "'" + tail, Outside, word) == Scan(false, tail, Outside, word)
  {
    var text := "'" + s + "'" + tail;
    assert text[1..] == s + ("'" + tail);
    SingleQuotedTextIsInert(false, s, "'" + tail, word);
    assert ("'" + tail)[1..] == tail;
  }

  lemma {:induction false} BlanksAreInert(f: bool, gap: string, tail: string, word: char -> bool)
    requires forall i :: 0 <= i < |gap| ==> IsSpace(gap[i])
    ensures Scan(f, gap + tail, Outside, word) == Scan(f || gap != [], tail, Outside, word)
    decreases |gap|
  {
    if gap == [] {
      assert gap + tail == tail;
    } else {
      var text := gap + tail;
      assert text[1..] == gap[1..] + tail;
      assert text[0] == gap[0] && (|text| >= 3 ==> text[..3][0] == text[0]);
      BlanksAreInert(true, gap[1..], tail, word);
    }
  }

  /** A whole line: an interpreter, blanks and one escaped argument is never refused. */
  lemma EscapedLineHasNoTokens(line: string, gap: string, s: string, word: char -> bool)
    requires NestedInterpreterEnd(line).Some?
    requires line[NestedInterpreterEnd(line).value..] == gap + ("\"" + BacktickEscape(s) + "\"")
    requires forall i :: 0 <= i < |gap| ==> IsSpace(gap[i])
    ensures Tokens(line, word) == []
  {
    BlanksAreInert(true, gap, "\"" + BacktickEscape(s) + "\"", word);
    EscapedArgumentIsInert(true || gap != [], s, [], word);
    assert "\"" + BacktickEscape(s) + "\"" + [] == "\"" + BacktickEscape(s) + "\"";
  }

  // ---------------------------------------------------------------------------
  // The stop-parsing token
  // ---------------------------------------------------------------------------

  /** The state behind `s`, or nothing if the automaton stopped inside `s`. */
  function EndState(f: bool, s: string, q: Quote, word: char -> bool): Option<(bool, Quote)>
    decreases |s|
  {
    if s == [] then Some((f, q))
    else
      match q
      case Single => EndState(IsSpace(s[0]), s[1..], if s[0] == '\'' then Outside else Single, word)
      case Double(true) => EndState(IsSpace(s[0]), s[1..], Double(false), word)
      case Double(false) =>
        if s[0] == '$' && MatchToken(s, word).Some? then EndState(false, s[MatchToken(s, word).value..], q, word)
        else EndState(IsSpace(s[0]), s[1..],
                      if s[0] == '`' then Double(true) else if s[0] == '"' then Outside else q, word)
      case Outside =>
        if IsStop(f, s) then None
        else EndState(IsSpace(s[0]), s[1..],
                      if s[0] == '\'' then Single else if s[0] == '"' then Double(false) else Outside, word)
  }

  /** The text has an expandable `${` in double quotes that it never closes. */
  predicate OpenBrace(f: bool, s: string, q: Quote, word: char -> bool)
    decreases |s|
  {
    s != [] &&
    match q
    case Single => OpenBrace(IsSpace(s[0]), s[1..], if s[0] == '\'' then Outside else Single, word)
    case Double(true) => OpenBrace(IsSpace(s[0]), s[1..], Double(false), word)
    case Double(false) =>
      if s[0] == '$' && MatchToken(s, word).Some? then OpenBrace(false, s[MatchToken(s, word).value..], q, word)
      else
        || (|s| >= 2 && s[0] == '$' && s[1] == '{')
        || OpenBrace(IsSpace(s[0]), s[1..], if s[0] == '`' then Double(true) else if s[0] == '"' then Outside else q, word)
    case Outside =>
      !IsStop(f, s) &&
      OpenBrace(IsSpace(s[0]), s[1..], if s[0] == '\'' then Single else if s[0] == '"' then Double(false) else Outside, word)
  }

  lemma {:induction false} RunLengthOfConcat(s: string, t: string, p: char -> bool)
    ensures RunLength(s + t, p) == if RunLength(s, p) < |s| then RunLength(s, p) else |s| + RunLength(t, p)
  {
    if s == [] {
      assert s + t == t;
    } else {
      assert (s + t)[1..] == s[1..] + t;
      RunLengthOfConcat(s[1..], t, p);
    }
  }

  /** Appending text changes a token only by closing an open brace or continuing a name. */
  lemma TokenOfConcat(s: string, t: string, word: char -> bool)
    requires |s| >= 2 && s[0] == '$'
    ensures s[1] == '{' && MatchToken(s, word).None? ==>
      var n := MatchToken(s + t, word);
      (n.None? <==> '}' !in t) && (n.Some? ==> n.value > |s|)
    ensures s[1] != '{' && MatchToken(s, word).None? ==> MatchToken(s + t, word).None?
    ensures MatchToken(s, word).Some? && MatchToken(s, word).value < |s| ==> MatchToken(s + t, word) == MatchToken(s, word)
  {
    assert (s + t)[2..] == s[2..] + t;
    if s[1] == '{' {
      RunLengthOfConcat(s[2..], t, c => c != '}');
    } else {
      RunLengthOfConcat(s[2..], t, c => word(c) || c == ':');
    }
  }

  /** No token is longer than the text it was found in. */
  lemma {:induction false} TokensAreShort(f: bool, s: string, q: Quote, word: char -> bool, i: nat)
    requires i < |Scan(f, s, q, word)|
    ensures |Scan(f, s, q, word)[i]| <= |s|
    decreases |s|
  {
    if q == Double(false) && s[0] == '$' && MatchToken(s, word).Some? {
      if i > 0 { TokensAreShort(false, s[MatchToken(s, word).value..], q, word, i - 1); }
    } else {
      var next := match q
        case Single => if s[0] == '\'' then Outside else Single
        case Double(true) => Double(false)
        case Double(false) => if s[0] == '`' then Double(true) else if s[0] == '"' then Outside else q
        case Outside => if s[0] == '\'' then Single else if s[0] == '"' then Double(false) else Outside;
      TokensAreShort(IsSpace(s[0]), s[1..], next, word, i);
    }
  }

  predicate StopTail(v: string) {
    v == [] || IsSpace(v[0])
  }

  lemma StopNotEarlier(f: bool, u: string, v: string)
    requires u != [] && StopTail(v)
    ensures IsStop(f, u + ("--%" + v)) ==> IsStop(f, u)
  {
    var w := u + ("--%" + v);
    if IsStop(f, w) {
      assert w[..3][2] == w[2] && w[..3][0] == w[0] && w[..3][1] == w[1];
      if |u| == 3 { assert u == w[..3]; }
      if |u| > 3 { assert u[..3] == w[..3]; }
    }
  }

  /** An unclosed `${` swallows the stop token when a closing brace follows it. */
  lemma OpenBraceSwallows(u: string, v: string, word: char -> bool)
    requires |u| >= 2 && u[0] == '$' && u[1] == '{' && MatchToken(u, word).None? && '}' in v
    ensures Scan(false, u + ("--%" + v), Double(false), word) != Scan(false, u, Double(false), word)
  {
    var w := "--%" + v;
    assert '}' in w by { var i :| 0 <= i < |v| && v[i] == '}'; assert w[i + 3] == '}'; }
    TokenOfConcat(u, w, word);
    var n := MatchToken(u + w, word).value;
    var found := Scan(false, u + w, Double(false), word);
    assert |found[0]| == n > |u|;
    var alone := Scan(false, u, Double(false), word);
    if alone != [] { TokensAreShort(false, u, Double(false), word, 0); }
  }

  /**
    Behind a standalone `--%` outside quotes the text has no influence, if and only if no
    expandable `${` in front of it is still waiting for a `}` that the text supplies.
   */
  lemma {:induction false} StopTokenHidesTail(f: bool, u: string, q: Quote, v: string, word: char -> bool)
    requires EndState(f, u, q, word) == Some((true, Outside)) && StopTail(v)
    ensures Scan(f, u + ("--%" + v), q, word) == Scan(f, u, q, word) <==> !OpenBrace(f, u, q, word) || '}' !in v
    decreases |u|
  {
    var w := "--%" + v;
    if u == [] {
      assert u + w == w && w[..3] == "--%";
    } else {
      assert (u + w)[1..] == u[1..] + w;
      match q {
        case Outside =>
          StopNotEarlier(f, u, v);
          assert IsStop(f, u + w) ==> IsStop(f, u);
          StopTokenHidesTail(IsSpace(u[0]), u[1..], if u[0] == '\'' then Single else if u[0] == '"' then Double(false) else Outside, v, word);
        case Single =>
          StopTokenHidesTail(IsSpace(u[0]), u[1..], if u[0] == '\'' then Outside else Single, v, word);
        case Double(true) =>
          StopTokenHidesTail(IsSpace(u[0]), u[1..], Double(false), v, word);
        case Double(false) =>
          StopHidesInDouble(f, u, v, word);
      }
    }
  }

  lemma {:induction false} StopHidesInDouble(f: bool, u: string, v: string, word: char -> bool)
    requires u != [] && EndState(f, u, Double(false), word) == Some((true, Outside)) && StopTail(v)
    ensures Scan(f, u + ("--%" + v), Double(false), word) == Scan(f, u, Double(false), word)
            <==> !OpenBrace(f, u, Double(false), word) || '}' !in v
    decreases |u|, 0
  {
    var w := "--%" + v;
    assert (u + w)[1..] == u[1..] + w;
    if u[0] != '$' {
      StopTokenHidesTail(IsSpace(u[0]), u[1..], if u[0] == '`' then Double(true) else if u[0] == '"' then Outside else Double(false), v, word);
    } else {
      assert |u| >= 2;
      TokenOfConcat(u, w, word);
      var m := MatchToken(u, word);
      if m.Some? {
        var n := m.value;
        assert n < |u|;
        assert (u + w)[..n] == u[..n] && (u + w)[n..] == u[n..] + w;
        StopTokenHidesTail(false, u[n..], Double(false), v, word);
        assert [u[..n]] + Scan(false, u[n..] + w, Double(false), word) == [u[..n]] + Scan(false, u[n..], Double(false), word)
          <==> Scan(false, u[n..] + w, Double(false), word) == Scan(false, u[n..], Double(false), word) by {
          SameHead(u[..n], Scan(false, u[n..] + w, Double(false), word), Scan(false, u[n..], Double(false), word));
        }
      } else if u[1] == '{' && '}' in v {
        OpenBraceSwallows(u, v, word);
        FlagMattersOutsideOnly(f, false, u + w, Double(false), word);
        FlagMattersOutsideOnly(f, false, u, Double(false), word);
      } else {
        assert '}' in w ==> '}' in v by {
          if '}' in w { var i :| 0 <= i < |w| && w[i] == '}'; assert v[i - 3] == '}'; }
        }
        StopTokenHidesTail(IsSpace(u[0]), u[1..], Double(false), v, word);
      }
    }
  }

  lemma SameHead(x: string, a: seq<string>, b: seq<string>)
    ensures [x] + a == [x] + b <==> a == b
  {
    assert ([x] + a)[1..] == a && ([x] + b)[1..] == b;
  }

  lemma PwshLine(rest: string)
    requires rest != [] && IsSpace(rest[0])
    ensures NestedInterpreterEnd("pwsh" + rest) == Some(4) && ("pwsh" + rest)[4..] == rest
  {
    var line := "pwsh" + rest;
    assert line[0..] == line && line[..4] == "pwsh";
    assert RunLength(line, IsSpace) == 0;
    assert RunLength(line, c => !IsSpace(c)) == 4 by { assert IsSpace(line[4]); }
    assert "pwsh"[0..] == "pwsh" && EndsInName("pwsh", "pwsh");
  }

  /** Behind an open brace two tails give different tokens if only one of them closes it. */
  lemma OpenBraceLinesDiffer(u: string, v: string, w: string, word: char -> bool)
    requires u != [] && IsSpace(u[0]) && EndState(true, u, Outside, word) == Some((true, Outside))
    requires OpenBrace(true, u, Outside, word)
    requires StopTail(v) && StopTail(w) && '}' in v && '}' !in w
    ensures Tokens("pwsh" + (u + ("--%" + v)), word) != Tokens("pwsh" + (u + ("--%" + w)), word)
  {
    StopTokenHidesTail(true, u, Outside, v, word);
    StopTokenHidesTail(true, u, Outside, w, word);
    PwshLine(u + ("--%" + v));
    PwshLine(u + ("--%" + w));
  }

  const HEAD := " \"${\" "
  const CLOSED_BEHIND := "pwsh \"${\" --% }"
  const OPEN_BEHIND := "pwsh \"${\" --% {"

  lemma BraceIsOpen(word: char -> bool)
    ensures EndState(true, HEAD, Outside, word) == Some((true, Outside)) && OpenBrace(true, HEAD, Outside, word)
  {
    var a, b, c, d, e := "\"${\" ", "${\" ", "{\" ", "\" ", " ";
    assert HEAD[1..] == a && a[1..] == b && b[1..] == c && c[1..] == d && d[1..] == e && e[1..] == "";
    assert b[2..] == d && MatchToken(b, word).None?;
    assert EndState(true, e, Outside, word) == Some((true, Outside));
    assert EndState(false, d, Double(false), word) == Some((true, Outside));
    assert EndState(false, b, Double(false), word) == Some((true, Outside));
    assert EndState(true, a, Outside, word) == Some((true, Outside));
    assert OpenBrace(false, b, Double(false), word) && OpenBrace(true, a, Outside, word);
  }

  lemma LinesApart()
    ensures CLOSED_BEHIND == "pwsh" + (HEAD + ("--%" + " }"))
    ensures OPEN_BEHIND == "pwsh" + (HEAD + ("--%" + " {"))
  {
  }

  /** Two lines that differ behind the `--%` only: the `${` in front of it finds its brace in the first. */
  lemma TailMatters(word: char -> bool)
    ensures Tokens(CLOSED_BEHIND, word) != Tokens(OPEN_BEHIND, word)
  {
    var v, w := " }", " {";
    assert v[1] == '}';
    LinesApart();
    BraceIsOpen(word);
    OpenBraceLinesDiffer(HEAD, v, w, word);
  }
}
