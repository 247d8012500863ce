/** The rewriting of a document's style sheet so that its rules apply inside one
    container only: hand-written scanners over text that together implement a map
    over the tree of rules. */
module CssScope {
  import opened Options
  import opened JsText

  // ---------------------------------------------------------------------
  // The brace matcher

  datatype Mode = Code | Comment | Quoted(quote: char)

  /** What the scanner consumes at once: its length, the mode after it and the
      change of nesting depth. */
  datatype Token = Token(len: nat, mode: Mode, delta: int)

  function Lex(s: string, mode: Mode): (t: Token)
    requires s != ""
    ensures 1 <= t.len <= |s|
    ensures t.delta >= -1 && (t.delta == -1 ==> s[0] == '}' && t.len == 1)
  {
    LexPair(s[0], if |s| > 1 then Some(s[1]) else None, mode)
  }

  /** The token at character c, given the next character if there is one. */
  function LexPair(c: char, next: Option<char>, mode: Mode): (t: Token)
    ensures 1 <= t.len <= if next.Some? then 2 else 1
  {
    match mode
    case Comment => if c == '*' && next == Some('/') then Token(2, Code, 0) else Token(1, Comment, 0)
    case Quoted(q) =>
      if c == '\\' then Token(if next.Some? then 2 else 1, mode, 0)
      else if c == q then Token(1, Code, 0)
      else Token(1, mode, 0)
    case Code =>
      if c == '/' && next == Some('*') then Token(2, Comment, 0)
      else if c == '"' || c == '\'' then Token(1, Quoted(c), 0)
      else if c == '{' then Token(1, Code, 1)
      else if c == '}' then Token(1, Code, -1)
      else Token(1, Code, 0)
  }

  /** The offset in s of the brace that brings the depth to 0, or -1. */
  function MatchFrom(s: string, depth: int, mode: Mode): (r: int)
    ensures -1 <= r < |s|
    decreases |s|
  {
    if s == "" then -1
    else
      var t := Lex(s, mode);
      if t.delta == -1 && depth == 1 then 0
      else Shift(t.len, MatchFrom(s[t.len..], depth + t.delta, t.mode))
  }

  function Shift(n: nat, r: int): int {
    if r == -1 then -1 else n + r
  }

  /** The matching brace as an index of the whole text, scanning from index. */
  function MatchAt(css: string, index: nat, depth: int, mode: Mode): (r: int)
    requires index <= |css|
    ensures -1 <= r < |css|
  {
    Shift(index, MatchFrom(css[index..], depth, mode))
  }

  function CharAt(s: string, i: nat): Option<char> {
    if i < |s| then Some(s[i]) else None
  }

  lemma MatchStep(css: string, index: nat, depth: int, mode: Mode)
    requires index < |css|
    ensures var t := LexPair(css[index], CharAt(css, index + 1), mode);
            && index + t.len <= |css|
            && MatchAt(css, index, depth, mode) ==
               if t.delta == -1 && depth == 1 then index else MatchAt(css, index + t.len, depth + t.delta, t.mode)
  {
    var t := Lex(css[index..], mode);
    assert css[index..][t.len..] == css[index + t.len..];
  }

  method FindMatchingBrace(css: string, openIndex: nat) returns (r: int)
    requires openIndex <= |css|
    ensures r == MatchAt(css, openIndex, 0, Code)
  {
    var depth := 0;
    var mode := Code;
    var index := openIndex;
    while index < |css|
      invariant openIndex <= index <= |css|
      invariant MatchAt(css, openIndex, 0, Code) == MatchAt(css, index, depth, mode)
    {
      var c := css[index];
      var next := CharAt(css, index + 1);
      MatchStep(css, index, depth, mode);
      match mode {
        case Comment =>
          if c == '*' && next == Some('/') {
            mode := Code;
            index := index + 1;
          }
        case Quoted(quote) =>
          if c == '\\' {
            index := if next.Some? then index + 1 else index;
          } else if c == quote {
            mode := Code;
          }
        case Code =>
          if c == '/' && next == Some('*') {
            mode := Comment;
            index := index + 1;
          } else if c == '"' || c == '\'' {
            mode := Quoted(c);
          } else if c == '{' {
            depth := depth + 1;
          } else if c == '}' {
            depth := depth - 1;
            if depth == 0 {
              return index;
            }
          }
      }
      index := index + 1;
    }
    return -1;
  }

  /** Quotes and comments are closed and the braces close at depth 0, never below. */
  predicate Closed(s: string, depth: nat, mode: Mode)
    decreases |s|
  {
    if s == "" then depth == 0 && mode == Code
    else
      var t := Lex(s, mode);
      depth + t.delta >= 0 && Closed(s[t.len..], depth + t.delta, t.mode)
  }

  /** A token does not depend on what follows a closed text. */
  lemma LexAppend(s: string, depth: nat, mode: Mode, rest: string) returns (t: Token, tail: string)
    requires s != "" && Closed(s, depth, mode)
    requires rest == "" || rest[0] != '*'
    ensures t == Lex(s, mode) == Lex(s + rest, mode)
    ensures s[t.len..] == tail && (s + rest)[t.len..] == tail + rest && |s| == t.len + |tail|
    ensures depth + t.delta >= 0 && Closed(tail, depth + t.delta, t.mode)
  {
    t := Lex(s, mode);
    tail := s[t.len..];
    assert (s + rest)[0] == s[0];
    if |s| == 1 {
      assert s[1..] == "";
    } else {
      assert (s + rest)[1] == s[1];
    }
  }

  lemma MatchUnfold(s: string, depth: int, mode: Mode, t: Token, tail: string, n: nat, r: int)
    requires s != "" && Lex(s, mode) == t && s[t.len..] == tail
    requires !(t.delta == -1 && depth == 1) && r >= -1
    requires MatchFrom(tail, depth + t.delta, t.mode) == Shift(n, r)
    ensures MatchFrom(s, depth, mode) == Shift(t.len + n, r)
  {
  }

  /** The matcher skips a closed text as a whole. */
  lemma {:induction false} SkipClosed(s: string, d: nat, mode: Mode, rest: string, e: nat, r: int)
    requires Closed(s, d, mode) && e >= 1
    requires rest == "" || rest[0] != '*'
    requires MatchFrom(rest, e, Code) == r
    ensures MatchFrom(s + rest, d + e, mode) == Shift(|s|, r)
    decreases |s|
  {
    hide Lex, LexPair;
    if s == "" {
      assert s + rest == rest;
    } else {
      var t, tail := LexAppend(s, d, mode, rest);
      SkipClosed(tail, d + t.delta, t.mode, rest, e, r);
      MatchUnfold(s + rest, d + e, mode, t, tail + rest, |tail|, r);
    }
  }

  lemma {:induction false} ClosedConcat(a: string, d: nat, mode: Mode, b: string, e: nat)
    requires Closed(a, d, mode) && Closed(b, e, Code)
    requires b == "" || b[0] != '*'
    ensures Closed(a + b, d + e, mode)
    decreases |a|
  {
    hide Lex, LexPair;
    if a == "" {
      assert a + b == b;
    } else {
      var t, tail := LexAppend(a, d, mode, b);
      ClosedConcat(tail, d + t.delta, t.mode, b, e);
    }
  }

  lemma MatchOpenBrace(s: string)
    ensures MatchFrom("{" + s, 0, Code) == Shift(1, MatchFrom(s, 1, Code))
  {
    assert ("{" + s)[1..] == s;
  }

  lemma MatchCloseBrace(s: string)
    ensures MatchFrom("}" + s, 1, Code) == 0
  {
  }

  /** Closed texts are exactly those whose enclosing braces the matcher pairs. */
  lemma ClosedExact(s: string, rest: string)
    ensures Closed(s, 0, Code) ==> MatchFrom("{" + s + "}" + rest, 0, Code) == |s| + 1
    ensures MatchFrom("{" + s + "}", 0, Code) == |s| + 1 ==> Closed(s, 0, Code)
  {
    hide MatchFrom, Closed;
    assert "{" + s + "}" + rest == "{" + (s + ("}" + rest));
    MatchOpenBrace(s + ("}" + rest));
    MatchOpenBrace(s + "}");
    assert "{" + s + "}" == "{" + (s + "}");
    if Closed(s, 0, Code) {
      MatchCloseBrace(rest);
      SkipClosed(s, 0, Code, "}" + rest, 1, 0);
    }
    if MatchFrom("{" + s + "}", 0, Code) == |s| + 1 {
      MatchedIsClosed(s, 0, Code);
    }
  }

  /** A match that is not at the first token is one in what follows it. */
  lemma MatchStepBack(s: string, depth: int, mode: Mode, n: nat)
    requires s != "" && n > 0 && MatchFrom(s, depth, mode) == n
    ensures var t := Lex(s, mode);
            t.len <= n && !(t.delta == -1 && depth == 1) && MatchFrom(s[t.len..], depth + t.delta, t.mode) == n - t.len
  {
    hide Lex, LexPair;
  }

  lemma MatchedBrace(d: nat, mode: Mode)
    requires MatchFrom("}", d + 1, mode) == 0
    ensures d == 0 && mode == Code
  {
  }

  lemma LexBeforeBrace(s: string, mode: Mode)
    requires s != "" && Lex(s + "}", mode).len <= |s|
    ensures Lex(s, mode) == Lex(s + "}", mode)
  {
    assert (s + "}")[0] == s[0];
    if |s| > 1 {
      assert (s + "}")[1] == s[1];
    }
  }

  lemma {:induction false} MatchedIsClosed(s: string, d: nat, mode: Mode)
    requires MatchFrom(s + "}", d + 1, mode) == |s|
    ensures Closed(s, d, mode)
    decreases |s|
  {
    hide Lex, LexPair, MatchFrom;
    if s != "" {
      var t := Lex(s + "}", mode);
      MatchStepBack(s + "}", d + 1, mode, |s|);
      LexBeforeBrace(s, mode);
      assert (s + "}")[t.len..] == s[t.len..] + "}";
      MatchedIsClosed(s[t.len..], d + t.delta, t.mode);
    } else {
      assert s + "}" == "}";
      MatchedBrace(d, mode);
    }
  }

  // ---------------------------------------------------------------------
  // Selectors

  /** `/^@(...)\b/i` for one keyword. */
  predicate IsAtKeyword(selector: string, keyword: string) {
    && |selector| >= |keyword| + 1
    && selector[0] == '@'
    && LowerAscii(selector[1..|keyword| + 1]) == keyword
    && (|selector| == |keyword| + 1 || !IsWordChar(selector[|keyword| + 1]))
  }

  predicate IsNestedAtRule(selector: string) {
    || IsAtKeyword(selector, "media") || IsAtKeyword(selector, "supports")
    || IsAtKeyword(selector, "container") || IsAtKeyword(selector, "layer")
  }

  /** The selector begins with this at-rule, in letters of either case and as a
      whole word. */
  ghost predicate BeginsAtRule(selector: string, keyword: string) {
    exists word, rest ::
      && selector == "@" + word + rest
      && LowerAscii(word) == keyword
      && (rest == "" || !IsWordChar(rest[0]))
  }

  lemma AroundWord(selector: string, n: nat)
    requires 1 <= n <= |selector| && selector[0] == '@'
    ensures selector == "@" + selector[1..n] + selector[n..]
    ensures n < |selector| ==> selector[n..][0] == selector[n]
    ensures n == |selector| ==> selector[n..] == ""
  {
  }

  lemma WordWithin(word: string, rest: string)
    ensures var s, n := "@" + word + rest, |word| + 1;
            && |s| == n + |rest| && s[0] == '@' && s[1..n] == word
            && (rest != "" ==> s[n] == rest[0])
  {
  }

  lemma AtKeywordExact(selector: string, keyword: string)
    ensures IsAtKeyword(selector, keyword) <==> BeginsAtRule(selector, keyword)
  {
    if IsAtKeyword(selector, keyword) {
      var n := |keyword| + 1;
      var word, rest := selector[1..n], selector[n..];
      AroundWord(selector, n);
      assert selector == "@" + word + rest;
    }
    if BeginsAtRule(selector, keyword) {
      var word, rest :|
        selector == "@" + word + rest && LowerAscii(word) == keyword && (rest == "" || !IsWordChar(rest[0]));
      assert |word| == |LowerAscii(word)| == |keyword|;
      WordWithin(word, rest);
    }
  }

  ghost predicate BeginsNested(selector: string) {
    exists keyword :: keyword in {"media", "supports", "container", "layer"} && BeginsAtRule(selector, keyword)
  }

  ghost predicate BeginsRaw(selector: string) {
    exists keyword :: keyword in {"keyframes", "font-face", "page", "property"} && BeginsAtRule(selector, keyword)
  }

  lemma AtRulesExact(selector: string)
    ensures IsNestedAtRule(selector) <==> BeginsNested(selector)
    ensures IsRawAtRule(selector) <==> BeginsRaw(selector)
  {
    hide IsAtKeyword, BeginsAtRule;
    AtKeywordExact(selector, "media");
    AtKeywordExact(selector, "supports");
    AtKeywordExact(selector, "container");
    AtKeywordExact(selector, "layer");
    AtKeywordExact(selector, "keyframes");
    AtKeywordExact(selector, "font-face");
    AtKeywordExact(selector, "page");
    AtKeywordExact(selector, "property");
  }

  predicate IsRawAtRule(selector: string) {
    || IsAtKeyword(selector, "keyframes") || IsAtKeyword(selector, "font-face")
    || IsAtKeyword(selector, "page") || IsAtKeyword(selector, "property")
  }

  /** The root element that the selector starts with, as a whole word: ":root",
      "html", "body" or none. */
  function RootElement(selector: string): (r: string)
    ensures StartsWith(selector, r)
  {
    if EndsRoot(selector, ":root") then ":root"
    else if EndsRoot(selector, "html") then "html"
    else if EndsRoot(selector, "body") then "body"
    else ""
  }

  predicate EndsRoot(selector: string, root: string) {
    && StartsWith(selector, root)
    && (|selector| == |root| ||
        var c := selector[|root|]; IsSpace(c) || c in {'.', '#', ':', '[', '>', '+', '~'})
  }

  function ScopeSingleSelector(selector: string, scope: string): string {
    if selector == "" || StartsWith(selector, "@") || StartsWith(selector, scope) then selector
    else
      var root := RootElement(selector);
      if root != "" then scope + selector[|root|..] else scope + " " + selector
  }

  /** The selector is a root element, as a whole word, followed by rest. */
  ghost predicate Rooted(selector: string, root: string, rest: string) {
    && root in {":root", "html", "body"}
    && selector == root + rest
    && (rest == "" || IsSpace(rest[0]) || rest[0] in ".#:[>+~")
  }

  /** What becomes of one selector: an empty one, an at-rule and one that starts
      with the scope stay; in a rooted one the scope takes the place of the root;
      any other stands whole behind the scope and a space. */
  ghost predicate SingleScoped(selector: string, r: string, scope: string) {
    if selector == "" || selector[0] == '@' || scope <= selector then r == selector
    else if exists root, rest :: Rooted(selector, root, rest) then
      exists root, rest :: Rooted(selector, root, rest) && r == scope + rest
    else r == scope + " " + selector
  }

  /** Which root a selector has is not open to choice. */
  lemma RootedOnce(selector: string, root: string, rest: string, root': string, rest': string)
    requires Rooted(selector, root, rest) && Rooted(selector, root', rest')
    ensures root == root' && rest == rest'
  {
    assert selector[0] == root[0] == root'[0];
    assert rest == selector[|root|..] && rest' == selector[|root'|..];
  }

  lemma RootElementExact(selector: string)
    ensures var root := RootElement(selector);
            if root == "" then forall r, rest :: !Rooted(selector, r, rest)
            else Rooted(selector, root, selector[|root|..])
  {
    hide IsSpace;
    forall r, rest | Rooted(selector, r, rest)
      ensures RootElement(selector) == r
    {
      assert selector[..|r|] == r && selector[|r|..] == rest;
      assert selector[0] == r[0];
      assert EndsRoot(selector, r);
    }
  }

  /** Scoping a selector gives what SingleScoped says, and confines it, once: every
      selector that is not empty and not an at-rule starts with the scope, and
      scoping it again changes nothing. */
  lemma ScopeSingleOnce(selector: string, scope: string)
    ensures var r := ScopeSingleSelector(selector, scope);
            && SingleScoped(selector, r, scope)
            && (selector != "" && selector[0] != '@' ==> StartsWith(r, scope))
            && ScopeSingleSelector(r, scope) == r
  {
    hide RootElement, Rooted;
    var r := ScopeSingleSelector(selector, scope);
    RootElementExact(selector);
    assert StartsWith(selector, scope) <==> scope <= selector;
    assert StartsWith(scope + selector[|RootElement(selector)|..], scope);
    assert StartsWith(scope + " " + selector, scope);
  }

  datatype Parts = Parts(pieces: seq<string>, last: string)

  /** What the selector scanner consumes at once; a cut drops the comma. */
  datatype SelectorToken = SelectorToken(len: nat, depth: int, mode: Mode, cut: bool)

  function LexSelector(s: string, depth: int, mode: Mode): (t: SelectorToken)
    requires s != ""
    ensures 1 <= t.len <= |s|
  {
    if mode.Quoted? then
      if s[0] == '\\' then SelectorToken(if |s| > 1 then 2 else 1, depth, mode, false)
      else SelectorToken(1, depth, if s[0] == mode.quote then Code else mode, false)
    else if s[0] == '"' || s[0] == '\'' then SelectorToken(1, depth, Quoted(s[0]), false)
    else if s[0] == '(' || s[0] == '[' then SelectorToken(1, depth + 1, mode, false)
    else if s[0] == ')' || s[0] == ']' then SelectorToken(1, depth - 1, mode, false)
    else SelectorToken(1, depth, mode, s[0] == ',' && depth == 0)
  }

  /** Splitting at the commas outside quotes, parentheses and brackets. */
  function SplitParts(s: string, current: string, depth: int, mode: Mode): Parts
    decreases |s|
  {
    if s == "" then Parts([], current)
    else
      var t := LexSelector(s, depth, mode);
      if t.cut then
        var rest := SplitParts(s[1..], "", 0, Code);
        Parts([current] + rest.pieces, rest.last)
      else SplitParts(s[t.len..], current + s[..t.len], t.depth, t.mode)
  }

  /** A last piece of white space only is not a selector. */
  function SplitList(s: string): seq<string> {
    var p := SplitParts(s, "", 0, Code);
    if Trim(p.last) != "" then p.pieces + [p.last] else p.pieces
  }

  /** Only a last piece that is all white space is left out. */
  lemma SplitListExact(s: string)
    ensures var p := SplitParts(s, "", 0, Code);
            SplitList(s) == if forall c :: c in p.last ==> IsSpace(c) then p.pieces else p.pieces + [p.last]
  {
    hide IsSpace, SplitParts;
    var last := SplitParts(s, "", 0, Code).last;
    assert Blank(last) <==> forall c :: c in last ==> IsSpace(c);
  }

  lemma SplitStep(list: string, index: nat, current: string, depth: int, mode: Mode)
    requires index < |list|
    ensures var p := SplitParts(list[index..], current, depth, mode);
            var t := LexSelector(list[index..], depth, mode);
            if t.cut then
              var rest := SplitParts(list[index + 1..], "", 0, Code);
              p == Parts([current] + rest.pieces, rest.last)
            else
              index + t.len <= |list| &&
              p == SplitParts(list[index + t.len..], current + list[index..index + t.len], t.depth, t.mode)
  {
    hide LexSelector;
    var s := list[index..];
    var t := LexSelector(s, depth, mode);
    assert s[t.len..] == list[index + t.len..] && s[..t.len] == list[index..index + t.len];
    assert s[1..] == list[index + 1..];
  }

  method SplitSelectorList(selectorList: string) returns (selectors: seq<string>)
    ensures selectors == SplitList(selectorList)
  {
    hide SplitParts;
    selectors := [];
    var current := "";
    var depth := 0;
    var mode := Code;
    var index := 0;
    ghost var p := SplitParts(selectorList, "", 0, Code);
    assert selectorList[0..] == selectorList;
    while index < |selectorList|
      invariant 0 <= index <= |selectorList| && !mode.Comment?
      invariant p == SplitParts(selectorList[index..], current, depth, mode)
      invariant SplitParts(selectorList, "", 0, Code) == Parts(selectors + p.pieces, p.last)
    {
      var c := selectorList[index];
      SplitStep(selectorList, index, current, depth, mode);
      ghost var t, before, start := LexSelector(selectorList[index..], depth, mode), current, index;
      TakenFrom(selectorList, index, current);
      if mode.Quoted? {
        current := current + [c];
        if c == '\\' {
          if index + 1 < |selectorList| {
            index := index + 1;
            current := current + [selectorList[index]];
          }
        } else if c == mode.quote {
          mode := Code;
        }
      } else if c == '"' || c == '\'' {
        mode := Quoted(c);
        current := current + [c];
      } else if c == '(' || c == '[' {
        depth := depth + 1;
        current := current + [c];
      } else if c == ')' || c == ']' {
        depth := depth - 1;
        current := current + [c];
      } else if c == ',' && depth == 0 {
        PiecesMove(selectors, current, p);
        selectors := selectors + [current];
        current := "";
        p := SplitParts(selectorList[index + 1..], "", 0, Code);
      } else {
        current := current + [c];
      }
      index := index + 1;
      assert t.cut || current == before + selectorList[start..start + t.len];
    }
    LastPart(selectorList[index..], current, depth, mode);
    if Trim(current) != "" {
      selectors := selectors + [current];
    }
  }

  /** Taking one or two characters of the list. */
  lemma TakenFrom(list: string, index: nat, current: string)
    requires index < |list|
    ensures |list[index..]| == |list| - index && list[index..][0] == list[index]
    ensures current + [list[index]] == current + list[index..index + 1]
    ensures index + 1 < |list| ==>
              current + [list[index]] + [list[index + 1]] == current + list[index..index + 2]
  {
  }

  lemma PiecesMove(selectors: seq<string>, current: string, p: Parts)
    requires p.pieces != [] && p.pieces[0] == current
    ensures selectors + p.pieces == (selectors + [current]) + p.pieces[1..]
  {
  }

  lemma LastPart(s: string, current: string, depth: int, mode: Mode)
    requires s == ""
    ensures SplitParts(s, current, depth, mode) == Parts([], current)
  {
  }

  function JoinWith(pieces: seq<string>, separator: string): string {
    if pieces == [] then "" else if |pieces| == 1 then pieces[0]
    else pieces[0] + separator + JoinWith(pieces[1..], separator)
  }

  /** The text holds no comma outside quotes, parentheses and brackets. */
  predicate NoCut(s: string, depth: int, mode: Mode)
    decreases |s|
  {
    s == "" || (var t := LexSelector(s, depth, mode); !t.cut && NoCut(s[t.len..], t.depth, t.mode))
  }

  /** Every piece, the last one included. */
  function AllPieces(p: Parts): seq<string> { p.pieces + [p.last] }

  /** Splitting loses nothing and cuts everywhere it should: the pieces joined by
      commas are the list again, and no piece holds a further top-level comma. */
  lemma {:induction false} SplitExact(s: string, current: string, depth: int, mode: Mode)
    ensures var all := AllPieces(SplitParts(s, current, depth, mode));
            && JoinWith(all, ",") == current + s
            && StartsWith(all[0], current) && |all[0]| <= |current| + |s| && NoCut(all[0][|current|..], depth, mode)
            && forall i :: 1 <= i < |all| ==> NoCut(all[i], 0, Code)
    decreases |s|
  {
    hide LexSelector, JoinWith;
    var all := AllPieces(SplitParts(s, current, depth, mode));
    if s == "" {
      JoinOne(current);
      assert all == [current] && current + s == current;
    } else {
      var t := LexSelector(s, depth, mode);
      if t.cut {
        SplitExact(s[1..], "", 0, Code);
        SplitAtCut(s, current, depth, mode);
      } else {
        var seen := current + s[..t.len];
        SplitExact(s[t.len..], seen, t.depth, t.mode);
        assert seen + s[t.len..] == current + s;
        PieceGrows(all[0], current, s, t, depth, mode);
      }
    }
  }

  lemma SplitAtCut(s: string, current: string, depth: int, mode: Mode)
    requires s != "" && LexSelector(s, depth, mode).cut
    requires JoinWith(AllPieces(SplitParts(s[1..], "", 0, Code)), ",") == "" + s[1..]
    ensures var all, tail := AllPieces(SplitParts(s, current, depth, mode)), AllPieces(SplitParts(s[1..], "", 0, Code));
            all == [current] + tail && JoinWith(all, ",") == current + s
  {
    assert s[0] == ',';
    hide LexSelector, JoinWith;
    var p := SplitParts(s[1..], "", 0, Code);
    PiecesAssociate(current, p.pieces, p.last);
    JoinCons(current, AllPieces(p));
    CommaAssociates(current, s);
  }

  lemma PiecesAssociate(current: string, pieces: seq<string>, last: string)
    ensures ([current] + pieces) + [last] == [current] + (pieces + [last])
  {
  }

  lemma JoinOne(piece: string)
    ensures JoinWith([piece], ",") == piece
  {
  }

  lemma JoinCons(piece: string, tail: seq<string>)
    requires tail != []
    ensures JoinWith([piece] + tail, ",") == piece + "," + JoinWith(tail, ",")
  {
    assert ([piece] + tail)[1..] == tail;
  }

  lemma CommaAssociates(current: string, s: string)
    requires s != "" && s[0] == ','
    ensures current + "," + ("" + s[1..]) == current + s
  {
  }

  lemma PieceGrows(piece: string, current: string, s: string, t: SelectorToken, depth: int, mode: Mode)
    requires s != "" && t == LexSelector(s, depth, mode) && !t.cut
    requires StartsWith(piece, current + s[..t.len]) && |piece| <= |current| + |s|
    requires NoCut(piece[|current + s[..t.len]|..], t.depth, t.mode)
    ensures StartsWith(piece, current) && NoCut(piece[|current|..], depth, mode)
  {
    var rest := piece[|current| + t.len..];
    assert piece[..|current|] == (current + s[..t.len])[..|current|] == current;
    assert piece[|current|..] == s[..t.len] + rest by {
      assert piece == piece[..|current| + t.len] + rest;
    }
    NoCutPrepend(s, t, depth, mode, rest);
  }

  lemma NoCutPrepend(s: string, t: SelectorToken, depth: int, mode: Mode, rest: string)
    requires s != "" && t == LexSelector(s, depth, mode) && !t.cut
    requires t.len == |s| ==> rest == ""
    requires NoCut(rest, t.depth, t.mode)
    ensures NoCut(s[..t.len] + rest, depth, mode)
  {
    var x := s[..t.len] + rest;
    assert x[0] == s[0] && x[t.len..] == rest;
    assert LexSelector(x, depth, mode) == t;
  }

  // ---------------------------------------------------------------------
  // The rewriter

  /** Each selector of the list, scoped. */
  function ScopedPieces(selectorList: string, scope: string): (r: seq<string>)
    ensures |r| == |SplitList(selectorList)|
  {
    var pieces := SplitList(selectorList);
    seq(|pieces|, i requires 0 <= i < |pieces| => ScopeSingleSelector(Trim(pieces[i]), scope))
  }

  function ScopeSelectorList(selectorList: string, scope: string): string {
    JoinWith(ScopedPieces(selectorList, scope), ",\n")
  }

  /** The text up to the first `{`, and the text between it and its match. */
  datatype Cut = NoBlock | Block(prelude: string, body: string, rest: string)

  /** The block between these two braces. */
  function CutAt(css: string, open: nat, close: nat): (c: Cut)
    requires open < close < |css| && css[open] == '{' && css[close] == '}'
    ensures c.Block? && css == c.prelude + "{" + c.body + "}" + c.rest
    ensures |c.body| < |css| && |c.rest| < |css|
  {
    SliceAround(css, open, close);
    Block(css[..open], css[open + 1..close], css[close + 1..])
  }

  function NextBlock(css: string): (c: Cut)
    ensures c.Block? ==> css == c.prelude + "{" + c.body + "}" + c.rest
    ensures c.Block? ==> |c.body| < |css| && |c.rest| < |css|
  {
    var open := IndexOf(css, '{');
    if open == -1 then NoBlock
    else
      var close := MatchFrom(css[open..], 0, Code);
      if close == -1 then NoBlock
      else
        MatchIsBrace(css[open..], 0, Code);
        CutAt(css, open, open + close)
  }

  lemma SliceAround(css: string, open: nat, close: nat)
    requires open < close < |css| && css[open] == '{' && css[close] == '}'
    ensures css == css[..open] + "{" + css[open + 1..close] + "}" + css[close + 1..]
  {
    assert css == css[..open] + css[open..open + 1] + css[open + 1..close] + css[close..close + 1] + css[close + 1..];
  }

  lemma {:induction false} MatchIsBrace(s: string, depth: int, mode: Mode)
    ensures var r := MatchFrom(s, depth, mode);
            r >= 0 ==> s[r] == '}' && (depth == 0 ==> r > 0)
    decreases |s|
  {
    hide Lex, LexPair;
    if s != "" {
      var t := Lex(s, mode);
      MatchIsBrace(s[t.len..], depth + t.delta, t.mode);
    }
  }

  function ScopeCss(css: string, scope: string): string
    decreases |css|, 0
  {
    match NextBlock(css)
    case NoBlock => css
    case Block(prelude, body, rest) =>
      ScopeRule(Trim(prelude), body, scope) + ScopeCss(rest, scope)
  }

  function ScopeRule(selector: string, body: string, scope: string): string
    decreases |body|, 1
  {
    if IsNestedAtRule(selector) then selector + " {\n" + ScopeCss(body, scope) + "\n}\n"
    else if IsRawAtRule(selector) then selector + " {" + body + "}\n"
    else ScopeSelectorList(selector, scope) + " {" + body + "}\n"
  }

  method ScopeSelectors(selectorList: string, scope: string) returns (r: string)
    ensures r == ScopeSelectorList(selectorList, scope)
  {
    var pieces := SplitSelectorList(selectorList);
    r := JoinWith(seq(|pieces|, i requires 0 <= i < |pieces| => ScopeSingleSelector(Trim(pieces[i]), scope)), ",\n");
  }

  method ScopeCssSelectors(css: string, scope: string) returns (output: string)
    ensures output == ScopeCss(css, scope)
    decreases |css|, 0
  {
    hide *;
    output := "";
    var cursor := 0;
    ghost var left := ScopeCss(css, scope);
    while cursor < |css|
      invariant 0 <= cursor <= |css|
      invariant left == ScopeCss(css[cursor..], scope)
      invariant output + left == ScopeCss(css, scope)
    {
      var found := IndexOf(css[cursor..], '{');
      if found == -1 {
        NoBlockLeft(css, cursor, scope);
        output := output + css[cursor..];
        return;
      }
      var openIndex := cursor + found;
      var closeIndex := FindMatchingBrace(css, openIndex);
      if closeIndex == -1 {
        NoBlockLeft(css, cursor, scope);
        output := output + css[cursor..];
        return;
      }
      ScopeStep(css, cursor, openIndex, closeIndex, scope);
      var piece := ScopeBlock(Trim(css[cursor..openIndex]), css[openIndex + 1..closeIndex], scope);
      ghost var before := output;
      output := output + piece;
      cursor := closeIndex + 1;
      left := ScopeCss(css[cursor..], scope);
      ConcatAssociates(before, piece, left);
    }
    NoBlockLeft(css, cursor, scope);
  }

  method ScopeBlock(selector: string, body: string, scope: string) returns (piece: string)
    ensures piece == ScopeRule(selector, body, scope)
    decreases |body|, 1
  {
    if IsNestedAtRule(selector) {
      var inner := ScopeCssSelectors(body, scope);
      piece := selector + " {\n" + inner + "\n}\n";
    } else if IsRawAtRule(selector) {
      piece := selector + " {" + body + "}\n";
    } else {
      var scoped := ScopeSelectors(selector, scope);
      piece := scoped + " {" + body + "}\n";
    }
  }

  lemma NoBlockLeft(css: string, cursor: nat, scope: string)
    requires cursor <= |css|
    requires var found := IndexOf(css[cursor..], '{');
             found == -1 || MatchAt(css, cursor + found, 0, Code) == -1
    ensures ScopeCss(css[cursor..], scope) == css[cursor..]
  {
    hide MatchFrom, IndexOf, CutAt;
    assert NextBlock(css[cursor..]).NoBlock? by {
      var found := IndexOf(css[cursor..], '{');
      if found >= 0 {
        SuffixOfSuffix(css, cursor, cursor + found);
      }
    }
    hide NextBlock;
  }

  lemma SuffixOfSuffix(css: string, cursor: nat, open: nat)
    requires cursor <= open <= |css|
    ensures css[cursor..][open - cursor..] == css[open..]
  {
  }

  lemma ConcatAssociates(a: string, b: string, c: string)
    ensures (a + b) + c == a + (b + c)
  {
  }

  lemma ScopeStep(css: string, cursor: nat, open: nat, close: nat, scope: string)
    requires cursor <= open < |css|
    requires IndexOf(css[cursor..], '{') == open - cursor
    requires MatchAt(css, open, 0, Code) == close
    ensures open < close < |css|
    ensures ScopeCss(css[cursor..], scope) ==
            ScopeRule(Trim(css[cursor..open]), css[open + 1..close], scope) + ScopeCss(css[close + 1..], scope)
  {
    BlockAt(css, cursor, open, close);
  }

  lemma BlockAt(css: string, cursor: nat, open: nat, close: nat)
    requires cursor <= open < |css|
    requires IndexOf(css[cursor..], '{') == open - cursor
    requires MatchAt(css, open, 0, Code) == close
    ensures open < close < |css|
    ensures NextBlock(css[cursor..]) == Block(css[cursor..open], css[open + 1..close], css[close + 1..])
  {
    hide MatchFrom, IndexOf;
    MatchIsBrace(css[open..], 0, Code);
    SliceOfSuffix(css, cursor, open, close);
  }

  lemma SliceOfSuffix(css: string, cursor: nat, open: nat, close: nat)
    requires cursor <= open < close < |css|
    ensures var left := css[cursor..];
            && left[open - cursor..] == css[open..] && left[..open - cursor] == css[cursor..open]
            && left[open - cursor + 1..close - cursor] == css[open + 1..close]
            && left[close - cursor + 1..] == css[close + 1..]
  {
  }

  // ---------------------------------------------------------------------
  // The tree of rules

  datatype Sheet = End(tail: string) | Rule(prelude: string, body: Body, rest: Sheet)
  datatype Body = Text(text: string) | Nested(sheet: Sheet)

  function Print(s: Sheet): string {
    match s
    case End(tail) => tail
    case Rule(prelude, body, rest) => prelude + "{" + PrintBody(body) + "}" + Print(rest)
  }

  function PrintBody(b: Body): string {
    match b
    case Text(text) => text
    case Nested(sheet) => Print(sheet)
  }

  /** The only change made to the tree: preludes are trimmed and the selectors of
      leaf rules scoped. */
  function ScopeTree(s: Sheet, scope: string): Sheet {
    match s
    case End(_) => s
    case Rule(prelude, Nested(sheet), rest) =>
      Rule(Trim(prelude), Nested(ScopeTree(sheet, scope)), ScopeTree(rest, scope))
    case Rule(prelude, Text(text), rest) =>
      Rule(if IsRawAtRule(Trim(prelude)) then Trim(prelude) else ScopeSelectorList(Trim(prelude), scope),
           Text(text), ScopeTree(rest, scope))
  }

  /** Print with the white space that the rewriter puts around braces. */
  function Pretty(s: Sheet): string {
    match s
    case End(tail) => tail
    case Rule(prelude, Text(text), rest) => prelude + " {" + text + "}\n" + Pretty(rest)
    case Rule(prelude, Nested(sheet), rest) => prelude + " {\n" + Pretty(sheet) + "\n}\n" + Pretty(rest)
  }

  /** A text without its white space. */
  function Solid(s: string): string {
    if s == "" then "" else (if IsSpace(s[0]) then "" else [s[0]]) + Solid(s[1..])
  }

  lemma {:induction false} SolidConcat(a: string, b: string)
    ensures Solid(a + b) == Solid(a) + Solid(b)
  {
    hide IsSpace;
    if a == "" {
      assert a + b == b;
    } else {
      assert (a + b)[1..] == a[1..] + b;
      SolidConcat(a[1..], b);
    }
  }

  /** What stands between the pieces of a printed rule. */
  lemma SolidBraces()
    ensures Solid(" {") == Solid("{") == Solid(" {\n") == "{" && Solid("}\n") == Solid("}") == Solid("\n}\n") == "}"
  {
    assert IsSpace(' ') && IsSpace('\n') && !IsSpace('{') && !IsSpace('}');
    SolidSpaced(" ", "{", "\n");
    SolidSpaced("\n", "}", "\n");
    SolidSpaced(" ", "{", "");
    SolidSpaced("", "}", "\n");
    SolidSpaced("", "}", "");
    SolidSpaced("", "{", "");
    assert " {\n" == " " + "{" + "\n" && "\n}\n" == "\n" + "}" + "\n";
    assert " {" == " " + "{" + "" && "}\n" == "" + "}" + "\n" && "}" == "" + "}" + "" && "{" == "" + "{" + "";
  }

  lemma SolidSpaced(before: string, mark: string, after: string)
    requires |mark| == 1 && !IsSpace(mark[0]) && |before| <= 1 && |after| <= 1 && Blank(before) && Blank(after)
    ensures Solid(before + mark + after) == mark
  {
    hide IsSpace;
    SolidConcat(before + mark, after);
    SolidConcat(before, mark);
    SolidBlank(before);
    SolidBlank(after);
    assert mark[1..] == "" && Solid(mark) == [mark[0]];
  }

  lemma SolidBlank(s: string)
    requires Blank(s) && |s| <= 1
    ensures Solid(s) == ""
  {
    hide IsSpace;
    assert s != "" ==> s[1..] == "";
  }

  /** The rewriter's spacing of a tree changes white space only. */
  lemma {:induction false} PrettyIsPrint(s: Sheet)
    ensures Solid(Pretty(s)) == Solid(Print(s))
  {
    hide Solid;
    SolidBraces();
    match s
    case End(_) =>
    case Rule(prelude, Text(text), rest) =>
      PrettyIsPrint(rest);
      SolidRule(prelude, " {", text, "}\n", Pretty(rest));
      SolidRule(prelude, "{", text, "}", Print(rest));
    case Rule(prelude, Nested(sheet), rest) =>
      PrettyIsPrint(sheet);
      PrettyIsPrint(rest);
      SolidRule(prelude, " {\n", Pretty(sheet), "\n}\n", Pretty(rest));
      SolidRule(prelude, "{", Print(sheet), "}", Print(rest));
  }

  lemma SolidRule(a: string, b: string, c: string, d: string, e: string)
    ensures Solid(a + b + c + d + e) == Solid(a) + Solid(b) + Solid(c) + Solid(d) + Solid(e)
  {
    hide Solid;
    SolidConcat(a + b + c + d, e);
    SolidConcat(a + b + c, d);
    SolidConcat(a + b, c);
    SolidConcat(a, b);
  }

  /** The tree that a text is read as. */
  function Parse(css: string): Sheet
    decreases |css|
  {
    match NextBlock(css)
    case NoBlock => End(css)
    case Block(prelude, body, rest) =>
      Rule(prelude, if IsNestedAtRule(Trim(prelude)) then Nested(Parse(body)) else Text(body), Parse(rest))
  }

  // ---------------------------------------------------------------------
  // Confinement

  /** The preludes of the leaf rules, in the order of the text. */
  function Leaves(s: Sheet): seq<string> {
    match s
    case End(_) => []
    case Rule(prelude, Text(_), rest) => [prelude] + Leaves(rest)
    case Rule(_, Nested(sheet), rest) => Leaves(sheet) + Leaves(rest)
  }

  /** The texts in the braces of the leaf rules. */
  function LeafTexts(s: Sheet): seq<string> {
    match s
    case End(_) => []
    case Rule(_, Text(text), rest) => [text] + LeafTexts(rest)
    case Rule(_, Nested(sheet), rest) => LeafTexts(sheet) + LeafTexts(rest)
  }

  /** Every selector of the list applies inside the container only. */
  ghost predicate Confined(pieces: seq<string>, scope: string) {
    forall i :: 0 <= i < |pieces| ==> StartsWith(pieces[i], scope)
  }

  /** A selector that scoping puts inside the container, or that is there already. */
  predicate Confinable(selector: string, scope: string) {
    (selector != "" && selector[0] != '@') || StartsWith(selector, scope)
  }

  lemma SingleConfined(selector: string, scope: string)
    ensures StartsWith(ScopeSingleSelector(selector, scope), scope) <==> Confinable(selector, scope)
  {
    assert StartsWith(scope + selector[|RootElement(selector)|..], scope);
    assert StartsWith(scope + " " + selector, scope);
    hide RootElement;
  }

  /** A selector list is confined exactly if each of its selectors can be: an at-rule
      in front keeps the whole selector it begins, commas in it apart, outside. */
  lemma ListConfined(selectorList: string, scope: string)
    ensures Confined(ScopedPieces(selectorList, scope), scope) <==>
              forall i :: 0 <= i < |SplitList(selectorList)| ==> Confinable(Trim(SplitList(selectorList)[i]), scope)
  {
    hide StartsWith, ScopeSingleSelector, Confinable, SplitList, Trim;
    var pieces := SplitList(selectorList);
    forall i | 0 <= i < |pieces|
      ensures StartsWith(ScopedPieces(selectorList, scope)[i], scope) <==> Confinable(Trim(pieces[i]), scope)
    {
      SingleConfined(Trim(pieces[i]), scope);
    }
  }

  ghost predicate EachScoped(selectors: seq<string>, scoped: seq<string>, scope: string) {
    && |scoped| == |selectors|
    && forall i :: 0 <= i < |selectors| ==> SingleScoped(Trim(selectors[i]), scoped[i], scope)
  }

  /** What scoping makes of a leaf's prelude: a raw at-rule is kept, any other becomes
      its selectors, each scoped as SingleScoped says, and they are confined exactly
      if each of them can be. */
  ghost predicate LeafScoped(prelude: string, scoped: string, scope: string) {
    var list := Trim(prelude);
    if BeginsRaw(list) then scoped == list
    else
      && scoped == JoinWith(ScopedPieces(list, scope), ",\n")
      && EachScoped(SplitList(list), ScopedPieces(list, scope), scope)
      && (Confined(ScopedPieces(list, scope), scope) <==>
            forall i :: 0 <= i < |SplitList(list)| ==> Confinable(Trim(SplitList(list)[i]), scope))
  }

  /** For every tree: scoping keeps its leaf rules one by one, and which of them end
      up confined to the container is decided by their selectors alone. */
  lemma {:induction false} SheetConfined(s: Sheet, scope: string)
    ensures var a, b := Leaves(s), Leaves(ScopeTree(s, scope));
            |a| == |b| && forall i :: 0 <= i < |a| ==> LeafScoped(a[i], b[i], scope)
    ensures LeafTexts(ScopeTree(s, scope)) == LeafTexts(s)
  {
    hide LeafScoped, ScopeSelectorList, IsRawAtRule, Trim;
    match s
    case End(_) =>
    case Rule(prelude, Text(text), rest) =>
      LeafOfRule(prelude, scope);
      SheetConfined(rest, scope);
    case Rule(_, Nested(sheet), rest) =>
      SheetConfined(sheet, scope);
      SheetConfined(rest, scope);
  }

  lemma LeafOfRule(prelude: string, scope: string)
    ensures LeafScoped(prelude,
                       if IsRawAtRule(Trim(prelude)) then Trim(prelude)
                           else ScopeSelectorList(Trim(prelude), scope), scope)
  {
    hide Confined, ScopedPieces, SplitList, Confinable, Trim, IsRawAtRule, BeginsRaw, JoinWith, EachScoped;
    AtRulesExact(Trim(prelude));
    ListConfined(Trim(prelude), scope);
    PiecesScoped(Trim(prelude), scope);
  }

  lemma PiecesScoped(list: string, scope: string)
    ensures EachScoped(SplitList(list), ScopedPieces(list, scope), scope)
  {
    hide SingleScoped, ScopeSingleSelector, SplitList, Trim;
    forall i | 0 <= i < |SplitList(list)|
      ensures SingleScoped(Trim(SplitList(list)[i]), ScopedPieces(list, scope)[i], scope)
    {
      ScopeSingleOnce(Trim(SplitList(list)[i]), scope);
    }
  }

  /** The same for every text that is rewritten. */
  lemma TextConfined(css: string, scope: string)
    ensures var tree := Parse(css);
            var a, b := Leaves(tree), Leaves(ScopeTree(tree, scope));
            && Print(tree) == css && ScopeCss(css, scope) == Pretty(ScopeTree(tree, scope))
            && |a| == |b| && forall i :: 0 <= i < |a| ==> LeafScoped(a[i], b[i], scope)
    ensures LeafTexts(ScopeTree(Parse(css), scope)) == LeafTexts(Parse(css))
    ensures Solid(ScopeCss(css, scope)) == Solid(Print(ScopeTree(Parse(css), scope)))
  {
    hide *;
    PrettyIsPrint(ScopeTree(Parse(css), scope));
    ScopeIsTreeMap(css, scope);
    SheetConfined(Parse(css), scope);
  }

  /** A concrete rule that escapes: an at-rule without a body in front of it is read as
      part of its selector, which is then left as it is. */
  lemma ImportEscapes(body: string, rest: Sheet)
    ensures var scope, prelude := ".embedded-document", "@import 'x'; .a";
            var scoped := ScopeTree(Rule(prelude, Text(body), rest), scope);
            && scoped == Rule(prelude, Text(body), ScopeTree(rest, scope))
            && ScopedPieces(prelude, scope) == [prelude] && !Confined([prelude], scope)
  {
    hide *;
    ImportPrelude();
    ImportUnchanged("@import 'x'; .a", ".embedded-document", body, rest);
  }

  lemma ImportUnchanged(prelude: string, scope: string, body: string, rest: Sheet)
    requires Trim(prelude) == prelude && prelude != "" && prelude[0] == '@' && scope != "" && scope[0] != '@'
    requires !IsRawAtRule(prelude) && SplitList(prelude) == [prelude]
    ensures ScopeTree(Rule(prelude, Text(body), rest), scope) == Rule(prelude, Text(body), ScopeTree(rest, scope))
    ensures ScopedPieces(prelude, scope) == [prelude] && !Confined([prelude], scope)
  {
    hide Trim, IsRawAtRule, SplitList;
    assert ScopedPieces(prelude, scope) == [prelude];
    assert !StartsWith([prelude][0], scope);
  }

  lemma ImportPrelude()
    ensures var prelude := "@import 'x'; .a";
            && prelude != "" && prelude[0] == '@'
            && Trim(prelude) == prelude && !IsRawAtRule(prelude) && SplitList(prelude) == [prelude]
  {
    var prelude := "@import 'x'; .a";
    assert prelude[0] == '@' && prelude[1] == 'i' && prelude[|prelude| - 1] == 'a' && ',' !in prelude;
    assert !IsSpace('@') && !IsSpace('a');
    AtImport(prelude);
  }

  lemma AtImport(prelude: string)
    requires |prelude| > 1 && prelude[0] == '@' && prelude[1] == 'i' && ',' !in prelude
             && !IsSpace(prelude[|prelude| - 1])
    ensures Trim(prelude) == prelude && !IsRawAtRule(prelude) && SplitList(prelude) == [prelude]
  {
    TrimSolid(prelude);
    NotKeyword(prelude, "keyframes");
    NotKeyword(prelude, "font-face");
    NotKeyword(prelude, "page");
    NotKeyword(prelude, "property");
    hide Trim, IsAtKeyword;
    NoCommaNoCut(prelude, 0, Code);
    UncutWhole(prelude, "", 0, Code);
    assert "" + prelude == prelude && [] + [prelude] == [prelude];
  }

  lemma NotKeyword(selector: string, keyword: string)
    requires |selector| > 1 && keyword != "" && selector[1] != keyword[0] && LowerChar(selector[1]) != keyword[0]
    ensures !IsAtKeyword(selector, keyword)
  {
    if |selector| >= |keyword| + 1 {
      assert LowerAscii(selector[1..|keyword| + 1])[0] == LowerChar(selector[1]);
    }
  }

  lemma {:induction false} NoCommaNoCut(s: string, depth: int, mode: Mode)
    requires ',' !in s
    ensures NoCut(s, depth, mode)
    decreases |s|
  {
    if s != "" {
      var t := LexSelector(s, depth, mode);
      assert s[0] in s;
      NoCommaNoCut(s[t.len..], t.depth, t.mode);
    }
  }

  /** A text without a top-level comma is one piece. */
  lemma {:induction false} UncutWhole(s: string, current: string, depth: int, mode: Mode)
    requires NoCut(s, depth, mode)
    ensures SplitParts(s, current, depth, mode) == Parts([], current + s)
    decreases |s|
  {
    hide LexSelector;
    if s == "" {
      assert current + s == current;
    } else {
      var t := LexSelector(s, depth, mode);
      UncutWhole(s[t.len..], current + s[..t.len], t.depth, t.mode);
      assert (current + s[..t.len]) + s[t.len..] == current + s;
    }
  }

  /** A tree with no `{` in a prelude or tail, closed bodies, and rules nested
      exactly under nesting at-rules; inside a body the preludes and the tail are
      closed as well. */
  predicate Proper(s: Sheet, inner: bool) {
    match s
    case End(tail) => '{' !in tail && (inner ==> Closed(tail, 0, Code))
    case Rule(prelude, body, rest) =>
      && '{' !in prelude && (inner ==> Closed(prelude, 0, Code))
      && (body.Nested? <==> IsNestedAtRule(Trim(prelude)))
      && (match body case Text(text) => Closed(text, 0, Code) case Nested(sheet) => Proper(sheet, true))
      && Proper(rest, inner)
  }

  /** For every text: the rewriter is the tree map, and the tree prints the text. */
  lemma {:induction false} ScopeIsTreeMap(css: string, scope: string)
    ensures ScopeCss(css, scope) == Pretty(ScopeTree(Parse(css), scope))
    ensures Print(Parse(css)) == css
    decreases |css|
  {
    match NextBlock(css)
    case NoBlock =>
    case Block(prelude, body, rest) =>
      ScopeIsTreeMap(body, scope);
      ScopeIsTreeMap(rest, scope);
      RuleIsTreeMap(prelude, body, rest, scope);
  }

  lemma RuleIsTreeMap(prelude: string, body: string, rest: string, scope: string)
    requires ScopeCss(body, scope) == Pretty(ScopeTree(Parse(body), scope)) && Print(Parse(body)) == body
    ensures var b := if IsNestedAtRule(Trim(prelude)) then Nested(Parse(body)) else Text(body);
            && PrintBody(b) == body
            && Pretty(ScopeTree(Rule(prelude, b, Parse(rest)), scope)) ==
               ScopeRule(Trim(prelude), body, scope) + Pretty(ScopeTree(Parse(rest), scope))
  {
  }

  lemma {:induction false} PrintClosed(s: Sheet)
    requires Proper(s, true)
    ensures Closed(Print(s), 0, Code)
  {
    match s
    case End(_) =>
    case Rule(prelude, body, rest) =>
      PrintClosed(rest);
      BodyClosed(body);
      RuleClosed(prelude, PrintBody(body), Print(rest));
  }

  lemma CloseBraceClosed(s: string)
    requires Closed(s, 0, Code)
    ensures Closed("}" + s, 1, Code)
  {
    assert ("}" + s)[1..] == s;
  }

  lemma OpenBraceClosed(s: string)
    requires Closed(s, 1, Code)
    ensures Closed("{" + s, 0, Code)
  {
    assert ("{" + s)[1..] == s;
  }

  lemma RuleClosed(prelude: string, inner: string, rest: string)
    requires Closed(prelude, 0, Code) && Closed(inner, 0, Code) && Closed(rest, 0, Code)
    ensures Closed(prelude + "{" + inner + "}" + rest, 0, Code)
  {
    hide *;
    var after := "}" + rest;
    CloseBraceClosed(rest);
    ClosedConcat(inner, 0, Code, after, 1);
    OpenBraceClosed(inner + after);
    ClosedConcat(prelude, 0, Code, "{" + (inner + after), 0);
    assert prelude + "{" + inner + "}" + rest == prelude + ("{" + (inner + after));
  }

  lemma BodyClosed(b: Body)
    requires match b case Text(text) => Closed(text, 0, Code) case Nested(sheet) => Proper(sheet, true)
    ensures Closed(PrintBody(b), 0, Code)
    decreases b
  {
    if b.Nested? {
      PrintClosed(b.sheet);
    }
  }

  lemma NextBlockOfPrint(prelude: string, inner: string, rest: string)
    requires '{' !in prelude && Closed(inner, 0, Code)
    ensures NextBlock(prelude + "{" + inner + "}" + rest) == Block(prelude, inner, rest)
  {
    hide MatchFrom, IndexOf, Closed, CutAt;
    var css := prelude + "{" + inner + "}" + rest;
    assert css == prelude + ['{'] + (inner + "}" + rest);
    IndexOfFirst(prelude, '{', inner + "}" + rest);
    ClosedExact(inner, rest);
    CutOfPrint(prelude, inner, rest);
  }

  lemma CutOfPrint(prelude: string, inner: string, rest: string)
    ensures var css, open := prelude + "{" + inner + "}" + rest, |prelude|;
            && css[open] == '{' && css[open + 1 + |inner|] == '}' && css[open..] == "{" + inner + "}" + rest
            && CutAt(css, open, open + 1 + |inner|) == Block(prelude, inner, rest)
  {
    BlockSlices(prelude, inner, rest);
  }

  lemma BlockSlices(prelude: string, inner: string, rest: string)
    ensures var css, open, close := prelude + "{" + inner + "}" + rest, |prelude|, |inner| + 1;
            && css[open..] == "{" + inner + "}" + rest
            && css[..open] == prelude && css[open + 1..open + close] == inner && css[open + close + 1..] == rest
  {
  }

  lemma {:induction false} ParsePrint(s: Sheet, inner: bool)
    requires Proper(s, inner)
    ensures Parse(Print(s)) == s
  {
    match s
    case End(_) =>
    case Rule(prelude, body, rest) =>
      BodyClosed(body);
      NextBlockOfPrint(prelude, PrintBody(body), Print(rest));
      ParsePrint(rest, inner);
      if body.Nested? {
        ParsePrint(body.sheet, true);
      }
  }

  /** Scoping the printed text of a proper tree prints the tree with each leaf
      selector scoped, bodies and order unchanged. */
  lemma ScopingTransformsTree(s: Sheet, scope: string)
    requires Proper(s, false)
    ensures ScopeCss(Print(s), scope) == Pretty(ScopeTree(s, scope))
  {
    ScopeIsTreeMap(Print(s), scope);
    ParsePrint(s, false);
  }
}
