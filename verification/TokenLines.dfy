/** Flattening a syntax tree into highlighted lines: `tokenizeCode` with `appendSpan` and `walk`
    (`apps/web/lib/code-syntax-highlighter.tsx`). */
module TokenLines {
  import opened Wrappers
  import opened Text

  /** A tokenizer's output; anything that is neither text nor a node with content shows nothing. */
  datatype Token =
    | Plain(text: string)
    | Node(kind: Option<string>, alias: Alias, content: Content)
    | Other

  datatype Alias = NoAlias | One(name: string) | Many(names: seq<string>)

  datatype Content = Nothing | Leaf(text: string) | Children(tokens: seq<Token>) | Nested(token: Token)

  /** What a stretch of text is shown as. */
  datatype Style = Style(kind: Option<string>, alias: Option<string>)
  {
    /** A node's own kind and alias, or those it inherits; an alias list stands for its first name. */
    function Within(node: Token): Style
      requires node.Node?
    {
      Style(
        if node.kind.Some? && node.kind.value != "" then node.kind else kind,
        match node.alias
        case NoAlias => alias
        case One(name) => if name != "" then Some(name) else alias
        case Many(names) => if names == [] then None else Some(names[0]))
    }
  }

  datatype Span = Span(content: string, style: Style)

  type Lines = seq<seq<Span>>

  // ---- What is shown ----

  datatype Glyph = Shown(c: char, style: Style) | Newline

  function Glyphs(text: string, style: Style): seq<Glyph> {
    seq(|text|, i requires 0 <= i < |text| => if text[i] == '\n' then Newline else Shown(text[i], style))
  }

  /** The leaves of a tree in order, each character with its style. */
  function Leaves(token: Token, style: Style): seq<Glyph>
    decreases token
  {
    match token
    case Plain(text) => Glyphs(text, style)
    case Other => []
    case Node(_, _, content) =>
      match content
      case Nothing => []
      case Leaf(text) => Glyphs(text, style.Within(token))
      case Nested(inner) => Leaves(inner, style.Within(token))
      case Children(tokens) => LeavesOf(tokens, style.Within(token))
  }

  function LeavesOf(tokens: seq<Token>, style: Style): seq<Glyph>
    decreases tokens
  {
    if tokens == [] then []
    else
      assert tokens[..|tokens| - 1] < tokens;
      LeavesOf(tokens[..|tokens| - 1], style) + Leaves(tokens[|tokens| - 1], style)
  }

  function LineGlyphs(line: seq<Span>): seq<Glyph> {
    if line == [] then [] else LineGlyphs(line[..|line| - 1]) + Glyphs(line[|line| - 1].content, line[|line| - 1].style)
  }

  /** The lines as they are shown, a newline between every two. */
  function Rendered(lines: Lines): seq<Glyph> {
    if lines == [] then []
    else if |lines| == 1 then LineGlyphs(lines[0])
    else Rendered(lines[..|lines| - 1]) + [Newline] + LineGlyphs(lines[|lines| - 1])
  }

  /** No span is empty, and none holds a newline. */
  predicate Tidy(lines: Lines) {
    && lines != []
    && forall i, j :: 0 <= i < |lines| && 0 <= j < |lines[i]| ==> lines[i][j].content != "" && '\n' !in lines[i][j].content
  }

  lemma GlyphsAppend(s: string, t: string, style: Style)
    ensures Glyphs(s + t, style) == Glyphs(s, style) + Glyphs(t, style)
  {}

  lemma RenderedNewLine(lines: Lines)
    requires lines != []
    ensures Rendered(lines + [[]]) == Rendered(lines) + [Newline]
  {
    assert (lines + [[]])[..|lines|] == lines;
  }

  function WithSpan(lines: Lines, span: Span): Lines
    requires lines != []
  {
    lines[..|lines| - 1] + [lines[|lines| - 1] + [span]]
  }

  lemma RenderedSpan(lines: Lines, span: Span)
    requires lines != []
    ensures Rendered(WithSpan(lines, span)) == Rendered(lines) + Glyphs(span.content, span.style)
  {
    var next, last := WithSpan(lines, span), lines[|lines| - 1];
    assert next[..|lines| - 1] == lines[..|lines| - 1];
    assert (last + [span])[..|last|] == last;
    assert LineGlyphs(last + [span]) == LineGlyphs(last) + Glyphs(span.content, span.style);
  }

  // ---- The tokenizer ----

  /** What is still to be shown when the first `i` parts of a text have been. */
  function Remaining(parts: seq<string>, i: nat, style: Style): seq<Glyph>
    requires i <= |parts|
  {
    if i == |parts| then []
    else (if i > 0 then [Newline] else []) + Glyphs(Join(parts[i..], '\n'), style)
  }

  lemma RemainingStep(parts: seq<string>, i: nat, style: Style)
    requires i < |parts|
    ensures Remaining(parts, i, style)
         == (if i > 0 then [Newline] else []) + Glyphs(parts[i], style) + Remaining(parts, i + 1, style)
  {
    if i + 1 < |parts| {
      assert parts[i..][1..] == parts[i + 1..];
      GlyphsAppend(parts[i] + ['\n'], Join(parts[i + 1..], '\n'), style);
      GlyphsAppend(parts[i], ['\n'], style);
      assert Glyphs(['\n'], style) == [Newline];
    } else {
      assert Join(parts[i..], '\n') == parts[i];
    }
  }

  lemma Regroup(a: seq<Glyph>, b: seq<Glyph>, c: seq<Glyph>, d: seq<Glyph>)
    ensures a + (b + c + d) == a + b + c + d
  {}

  lemma RemainingEnds(parts: seq<string>, style: Style)
    requires parts != []
    ensures Remaining(parts, 0, style) == Glyphs(Join(parts, '\n'), style) && Remaining(parts, |parts|, style) == []
  {
    assert parts[0..] == parts;
  }

  lemma GlyphsOfNothing(style: Style)
    ensures Glyphs("", style) == []
  {}

  lemma TidySpan(lines: Lines, span: Span)
    requires Tidy(lines) && span.content != "" && '\n' !in span.content
    ensures Tidy(WithSpan(lines, span))
  {}

  class Tokenizer {
    var lines: Lines

    constructor ()
      ensures lines == [[]]
    {
      lines := [[]];
    }

    method AppendSpan(text: string, style: Style)
      requires Tidy(lines)
      modifies this
      ensures Tidy(lines) && Rendered(lines) == old(Rendered(lines)) + Glyphs(text, style)
    {
      GlyphsOfNothing(style);
      if text == "" { return; }
      var parts := Split(text, '\n');
      JoinOfSplit(text, '\n');
      RemainingEnds(parts, style);
      hide Rendered, Remaining, Glyphs, Split, Join, Tidy;
      ghost var shown := Rendered(lines);
      for i := 0 to |parts|
        invariant Tidy(lines)
        invariant Rendered(lines) + Remaining(parts, i, style) == shown + Glyphs(text, style)
      {
        RemainingStep(parts, i, style);
        Regroup(Rendered(lines), if i > 0 then [Newline] else [], Glyphs(parts[i], style), Remaining(parts, i + 1, style));
        AppendPart(parts[i], i > 0, style);
      }
    }

    /** One part of a split text, on a line of its own unless it is the first. */
    method AppendPart(part: string, newLine: bool, style: Style)
      requires Tidy(lines) && '\n' !in part
      modifies this
      ensures Tidy(lines)
      ensures Rendered(lines) == old(Rendered(lines)) + (if newLine then [Newline] else []) + Glyphs(part, style)
    {
      if newLine {
        RenderedNewLine(lines);
        lines := lines + [[]];
      }
      if |part| > 0 {
        RenderedSpan(lines, Span(part, style));
        TidySpan(lines, Span(part, style));
        lines := WithSpan(lines, Span(part, style));
      }
    }

    method Walk(token: Token, style: Style)
      requires Tidy(lines)
      modifies this
      ensures Tidy(lines) && Rendered(lines) == old(Rendered(lines)) + Leaves(token, style)
      decreases token
    {
      match token
      case Plain(text) => AppendSpan(text, style);
      case Other =>
      case Node(_, _, content) =>
        var current := style.Within(token);
        match content
        case Nothing =>
        case Leaf(text) => AppendSpan(text, current);
        case Nested(inner) => Walk(inner, current);
        case Children(tokens) =>
          for i := 0 to |tokens|
            invariant Tidy(lines) && Rendered(lines) == old(Rendered(lines)) + LeavesOf(tokens[..i], current)
          {
            assert tokens[..i + 1][..i] == tokens[..i];
            Walk(tokens[i], current);
          }
          assert tokens[..|tokens|] == tokens;
    }

    /** The lines show the leaves of the trees, in order and in their styles, and nothing else. */
    method TokenizeCode(rawTokens: seq<Token>)
      modifies this
      ensures Tidy(lines) && Rendered(lines) == LeavesOf(rawTokens, Style(None, None))
    {
      lines := [[]];
      for i := 0 to |rawTokens|
        invariant Tidy(lines) && Rendered(lines) == LeavesOf(rawTokens[..i], Style(None, None))
      {
        assert rawTokens[..i + 1][..i] == rawTokens[..i];
        Walk(rawTokens[i], Style(None, None));
      }
      assert rawTokens[..|rawTokens|] == rawTokens;
    }
  }

  // ---- Styles ----

  /** A leaf's text and the nodes it lies in, outermost first. */
  datatype Run = Run(text: string, nodes: seq<Token>)

  ghost predicate AllNodes(nodes: seq<Token>) {
    forall i :: 0 <= i < |nodes| ==> nodes[i].Node?
  }

  /** The leaves of a tree that itself lies in `nodes`. */
  function RunsOf(token: Token, nodes: seq<Token>): seq<Run>
    decreases token
  {
    match token
    case Plain(text) => [Run(text, nodes)]
    case Other => []
    case Node(_, _, Nothing) => []
    case Node(_, _, Leaf(text)) => [Run(text, nodes + [token])]
    case Node(_, _, Nested(inner)) => RunsOf(inner, nodes + [token])
    case Node(_, _, Children(tokens)) => RunsOfAll(tokens, nodes + [token])
  }

  function RunsOfAll(tokens: seq<Token>, nodes: seq<Token>): seq<Run>
    decreases tokens
  {
    if tokens == [] then []
    else
      assert tokens[..|tokens| - 1] < tokens;
      RunsOfAll(tokens[..|tokens| - 1], nodes) + RunsOf(tokens[|tokens| - 1], nodes)
  }

  predicate Names(kind: Option<string>) {
    kind.Some? && kind.value != ""
  }

  /** A node says what alias its leaves have: a name, or a list, of which the first name counts and none if
      there is none. */
  predicate Speaks(node: Token)
    requires node.Node?
  {
    node.alias.Many? || (node.alias.One? && node.alias.name != "")
  }

  /** The style is the one that the nearest node with a kind, and the nearest that speaks of an alias, give. */
  ghost predicate IsStyleIn(style: Style, nodes: seq<Token>)
    requires AllNodes(nodes)
  {
    && (style.kind == None ==> forall i :: 0 <= i < |nodes| ==> !Names(nodes[i].kind))
    && (style.kind.Some? ==> exists i :: 0 <= i < |nodes| && Names(nodes[i].kind) && nodes[i].kind == style.kind
                                         && forall j :: i < j < |nodes| ==> !Names(nodes[j].kind))
    && ((forall i :: 0 <= i < |nodes| ==> !Speaks(nodes[i])) ==> style.alias == None)
    && (forall i :: 0 <= i < |nodes| && Speaks(nodes[i]) && (forall j :: i < j < |nodes| ==> !Speaks(nodes[j])) ==>
          style.alias == match nodes[i].alias
                         case One(name) => Some(name)
                         case Many(names) => if names == [] then None else Some(names[0])
                         case NoAlias => None)
  }

  lemma WithinIsStyle(style: Style, nodes: seq<Token>, node: Token)
    requires AllNodes(nodes) && node.Node? && IsStyleIn(style, nodes)
    ensures AllNodes(nodes + [node]) && IsStyleIn(style.Within(node), nodes + [node])
  {
    var longer := nodes + [node];
    var inner := style.Within(node);
    if Names(node.kind) {
      assert Names(longer[|nodes|].kind) && longer[|nodes|].kind == inner.kind;
    } else if style.kind.Some? {
      var i :| 0 <= i < |nodes| && Names(nodes[i].kind) && nodes[i].kind == style.kind
               && forall j :: i < j < |nodes| ==> !Names(nodes[j].kind);
      assert Names(longer[i].kind) && longer[i].kind == inner.kind;
    }
    assert forall i :: 0 <= i < |nodes| ==> longer[i] == nodes[i];
    assert Speaks(node) <==> Speaks(longer[|nodes|]);
  }

  /** Every run's characters, each in the style of its run. */
  ghost predicate Styled(runs: seq<Run>, glyphs: seq<Glyph>)
    decreases |runs|
  {
    if runs == [] then glyphs == []
    else
      var last := runs[|runs| - 1];
      AllNodes(last.nodes) && exists style, n ::
        0 <= n <= |glyphs| && IsStyleIn(style, last.nodes)
        && glyphs[n..] == Glyphs(last.text, style) && Styled(runs[..|runs| - 1], glyphs[..n])
  }

  lemma StyledStep(runs: seq<Run>, glyphs: seq<Glyph>, run: Run, style: Style)
    requires Styled(runs, glyphs) && AllNodes(run.nodes) && IsStyleIn(style, run.nodes)
    ensures Styled(runs + [run], glyphs + Glyphs(run.text, style))
  {
    hide AllNodes, IsStyleIn, Glyphs;
    var all, shown := runs + [run], glyphs + Glyphs(run.text, style);
    assert all[..|all| - 1] == runs && all[|all| - 1] == run;
    assert shown[..|glyphs|] == glyphs && shown[|glyphs|..] == Glyphs(run.text, style);
  }

  lemma {:induction false} StyledAppend(runs: seq<Run>, glyphs: seq<Glyph>, runs': seq<Run>, glyphs': seq<Glyph>)
    requires Styled(runs, glyphs) && Styled(runs', glyphs')
    ensures Styled(runs + runs', glyphs + glyphs')
    decreases |runs'|
  {
    hide AllNodes, IsStyleIn, Glyphs;
    if runs' == [] {
      assert runs + runs' == runs && glyphs + glyphs' == glyphs;
    } else {
      var init, last := runs'[..|runs'| - 1], runs'[|runs'| - 1];
      var style, n :| 0 <= n <= |glyphs'| && IsStyleIn(style, last.nodes)
        && glyphs'[n..] == Glyphs(last.text, style) && Styled(init, glyphs'[..n]);
      StyledAppend(runs, glyphs, init, glyphs'[..n]);
      StyledStep(runs + init, glyphs + glyphs'[..n], last, style);
      hide Styled;
      assert runs + runs' == runs + init + [last];
      assert glyphs + glyphs' == glyphs + glyphs'[..n] + glyphs'[n..];
    }
  }

  lemma OneStyled(run: Run, style: Style)
    requires AllNodes(run.nodes) && IsStyleIn(style, run.nodes)
    ensures Styled([run], Glyphs(run.text, style))
  {
    var glyphs := Glyphs(run.text, style);
    assert [run][..0] == [] && glyphs[..0] == [] && glyphs[0..] == glyphs;
  }

  /** Every leaf is shown in the kind of the nearest node around it that has one, and in the alias of the
      nearest that gives one. */
  lemma {:induction false} LeavesStyled(token: Token, style: Style, nodes: seq<Token>)
    requires AllNodes(nodes) && IsStyleIn(style, nodes)
    ensures Styled(RunsOf(token, nodes), Leaves(token, style))
    decreases token
  {
    if token.Node? { WithinIsStyle(style, nodes, token); }
    match token
    case Plain(text) => OneStyled(Run(text, nodes), style);
    case Other =>
    case Node(_, _, Nothing) =>
    case Node(_, _, Leaf(text)) => OneStyled(Run(text, nodes + [token]), style.Within(token));
    case Node(_, _, Nested(inner)) => LeavesStyled(inner, style.Within(token), nodes + [token]);
    case Node(_, _, Children(tokens)) => AllLeavesStyled(tokens, style.Within(token), nodes + [token]);
  }

  lemma {:induction false} AllLeavesStyled(tokens: seq<Token>, style: Style, nodes: seq<Token>)
    requires AllNodes(nodes) && IsStyleIn(style, nodes)
    ensures Styled(RunsOfAll(tokens, nodes), LeavesOf(tokens, style))
    decreases tokens
  {
    if tokens != [] {
      var init, last := tokens[..|tokens| - 1], tokens[|tokens| - 1];
      assert init < tokens;
      AllLeavesStyled(init, style, nodes);
      LeavesStyled(last, style, nodes);
      StyledAppend(RunsOfAll(init, nodes), LeavesOf(init, style), RunsOf(last, nodes), Leaves(last, style));
    }
  }

  /** So it is in the lines that the tokenizer leaves. */
  lemma LinesAreStyled(tokens: seq<Token>, lines: Lines)
    requires Rendered(lines) == LeavesOf(tokens, Style(None, None))
    ensures Styled(RunsOfAll(tokens, []), Rendered(lines))
  {
    AllLeavesStyled(tokens, Style(None, None), []);
  }

  // ---- Plain text ----

  function TextOf(glyphs: seq<Glyph>): string {
    seq(|glyphs|, i requires 0 <= i < |glyphs| => if glyphs[i].Newline? then '\n' else glyphs[i].c)
  }

  function LeafText(token: Token): string
    decreases token
  {
    match token
    case Plain(text) => text
    case Other => ""
    case Node(_, _, Nothing) => ""
    case Node(_, _, Leaf(text)) => text
    case Node(_, _, Nested(inner)) => LeafText(inner)
    case Node(_, _, Children(tokens)) => LeafTextOf(tokens)
  }

  function LeafTextOf(tokens: seq<Token>): string
    decreases tokens
  {
    if tokens == [] then ""
    else
      assert tokens[..|tokens| - 1] < tokens;
      LeafTextOf(tokens[..|tokens| - 1]) + LeafText(tokens[|tokens| - 1])
  }

  lemma {:induction false} TextOfLeaves(token: Token, style: Style)
    ensures TextOf(Leaves(token, style)) == LeafText(token)
    decreases token
  {
    match token
    case Node(_, _, Nested(inner)) => TextOfLeaves(inner, style.Within(token));
    case Node(_, _, Children(tokens)) => TextOfAllLeaves(tokens, style.Within(token));
    case _ =>
  }

  lemma {:induction false} TextOfAllLeaves(tokens: seq<Token>, style: Style)
    ensures TextOf(LeavesOf(tokens, style)) == LeafTextOf(tokens)
    decreases tokens
  {
    if tokens != [] {
      var init, last := tokens[..|tokens| - 1], tokens[|tokens| - 1];
      assert init < tokens;
      TextOfAllLeaves(init, style);
      TextOfLeaves(last, style);
      assert TextOf(LeavesOf(init, style) + Leaves(last, style)) == TextOf(LeavesOf(init, style)) + TextOf(Leaves(last, style));
    }
  }

  function LineText(line: seq<Span>): string {
    if line == [] then "" else LineText(line[..|line| - 1]) + line[|line| - 1].content
  }

  function LineTexts(lines: Lines): seq<string> {
    seq(|lines|, i requires 0 <= i < |lines| => LineText(lines[i]))
  }

  lemma {:induction false} TextOfLine(line: seq<Span>)
    ensures TextOf(LineGlyphs(line)) == LineText(line)
    ensures (forall j :: 0 <= j < |line| ==> '\n' !in line[j].content) ==> '\n' !in LineText(line)
  {
    if line != [] {
      var init, last := line[..|line| - 1], line[|line| - 1];
      TextOfLine(init);
      assert TextOf(LineGlyphs(init) + Glyphs(last.content, last.style)) == TextOf(LineGlyphs(init)) + last.content;
    }
  }

  lemma {:induction false} JoinSnoc(parts: seq<string>, last: string)
    requires parts != []
    ensures Join(parts + [last], '\n') == Join(parts, '\n') + ['\n'] + last
  {
    if |parts| > 1 {
      JoinSnoc(parts[1..], last);
      assert (parts + [last])[1..] == parts[1..] + [last];
    } else {
      assert (parts + [last])[1..] == [last];
    }
  }

  lemma {:induction false} TextOfLines(lines: Lines)
    requires lines != []
    ensures TextOf(Rendered(lines)) == Join(LineTexts(lines), '\n')
  {
    var init, last := lines[..|lines| - 1], lines[|lines| - 1];
    TextOfLine(last);
    if init == [] {
      assert lines[0] == last && LineTexts(lines) == [LineText(last)];
    } else {
      TextOfLines(init);
      JoinSnoc(LineTexts(init), LineText(last));
      assert LineTexts(lines) == LineTexts(init) + [LineText(last)];
      assert TextOf(Rendered(init) + [Newline] + LineGlyphs(last)) == TextOf(Rendered(init)) + ['\n'] + TextOf(LineGlyphs(last));
    }
  }

  /** Whatever the tree, the texts of the lines are the leaf text split at its newlines: joined again
      they are the leaf text, and there is one line more than there are newlines. */
  lemma LinesAreTheText(tokens: seq<Token>, lines: Lines)
    requires Tidy(lines) && Rendered(lines) == LeavesOf(tokens, Style(None, None))
    ensures LineTexts(lines) == Split(LeafTextOf(tokens), '\n')
    ensures Join(LineTexts(lines), '\n') == LeafTextOf(tokens)
    ensures |lines| == 1 + multiset(LeafTextOf(tokens))['\n']
  {
    TextOfAllLeaves(tokens, Style(None, None));
    TextOfLines(lines);
    forall i | 0 <= i < |lines| ensures '\n' !in LineTexts(lines)[i] { TextOfLine(lines[i]); }
    SplitOfJoin(LineTexts(lines), '\n');
    SplitCounts(LeafTextOf(tokens), '\n');
  }

  lemma {:induction false} SplitCounts(s: string, sep: char)
    ensures |Split(s, sep)| == 1 + multiset(s)[sep]
  {
    if s != [] {
      SplitCounts(s[1..], sep);
      assert s == [s[0]] + s[1..];
      assert multiset(s) == multiset{s[0]} + multiset(s[1..]);
    }
  }
}
