// linkify of src/utils/linkify.ts: a global regex walks the text and cuts it into plain-text
// pieces and links; then every plain-text piece is cut at its newlines, with a line break
// between neighbouring parts.  The React elements are modelled as a datatype of nodes.

module Linkify {
  import opened Common
  import JsString

  /** A text node, an `<a href>` element showing `url`, or a `<br />`. */
  datatype Node = Text(text: string) | Link(href: string, url: string) | Br

  // ---------------------------------------------------------------- the URL regex

  /** The class `[0-9A-Za-z-._~:/?#[\]@!$&'()*+,;=%]`, written as the ASCII ranges it
      covers: `!`, `#` to `;` (which holds the digits), `=`, `?` to `[` (which holds the
      capitals), `]`, `_`, the small letters and `~`. */
  predicate IsUrlChar(c: char) {
    c == '!' || '#' <= c <= ';' || c == '=' || '?' <= c <= '[' || c == ']' || c == '_' || 'a' <= c <= 'z' || c == '~'
  }

  /** The number of URL characters from index `i` on. */
  function UrlRun(s: string, i: nat): (n: nat)
    requires i <= |s|
    ensures i + n <= |s|
    decreases |s| - i
  {
    if i < |s| && IsUrlChar(s[i]) then 1 + UrlRun(s, i + 1) else 0
  }

  /** The run is made of URL characters and stops at the first other character. */
  lemma {:induction false} UrlRunShape(s: string, i: nat)
    requires i <= |s|
    ensures var n := UrlRun(s, i);
      (forall k :: i <= k < i + n ==> IsUrlChar(s[k])) && (i + n < |s| ==> !IsUrlChar(s[i + n]))
    decreases |s| - i
  {
    if i < |s| && IsUrlChar(s[i]) {
      UrlRunShape(s, i + 1);
    }
  }

  /** `https://` starts at index `p`. */
  predicate HttpsAt(s: string, p: nat) {
    p + 8 <= |s| && s[p] == 'h' && s[p + 1] == 't' && s[p + 2] == 't' && s[p + 3] == 'p'
    && s[p + 4] == 's' && s[p + 5] == ':' && s[p + 6] == '/' && s[p + 7] == '/'
  }

  /** `http://` starts at index `p`. */
  predicate HttpAt(s: string, p: nat) {
    p + 7 <= |s| && s[p] == 'h' && s[p + 1] == 't' && s[p + 2] == 't' && s[p + 3] == 'p'
    && s[p + 4] == ':' && s[p + 5] == '/' && s[p + 6] == '/'
  }

  /** `www.` starts at index `p`. */
  predicate WwwAt(s: string, p: nat) {
    p + 4 <= |s| && s[p] == 'w' && s[p + 1] == 'w' && s[p + 2] == 'w' && s[p + 3] == '.'
  }

  /** The length of the scheme that starts at `p`: `https://`, `http://` (the `s?` of the
      first alternative) or `www.` (the second alternative); 0 when none starts there. */
  function SchemeAt(s: string, p: nat): nat {
    if HttpsAt(s, p) then 8
    else if HttpAt(s, p) then 7
    else if WwwAt(s, p) then 4
    else 0
  }

  /** The scheme found is the first alternative that the rest of the text begins with, and
      it lies inside the text. */
  lemma {:induction false} SchemeAtPrefix(s: string, p: nat)
    requires p <= |s|
    ensures var k := SchemeAt(s, p);
      p + k <= |s|
      && (k == 8 <==> "https://" <= s[p..])
      && (k == 7 <==> "http://" <= s[p..] && !("https://" <= s[p..]))
      && (k == 4 <==> "www." <= s[p..] && !("http://" <= s[p..]) && !("https://" <= s[p..]))
  {
    var t := s[p..];
    assert forall i :: 0 <= i < |t| ==> t[i] == s[p + i];
    assert HttpsAt(s, p) <==> "https://" <= t by {
      if HttpsAt(s, p) {
        assert t[..8] == "https://";
      }
    }
    assert HttpAt(s, p) <==> "http://" <= t by {
      if HttpAt(s, p) {
        assert t[..7] == "http://";
      }
    }
    assert WwwAt(s, p) <==> "www." <= t by {
      if WwwAt(s, p) {
        assert t[..4] == "www.";
      }
    }
  }

  /** What `(https?:\/\/[…]+)|(www\.[…]+)` matches: a scheme, then at least one further URL
      character, and URL characters only. */
  predicate IsLinkText(u: string) {
    0 < SchemeAt(u, 0) < |u| && forall k :: 0 <= k < |u| ==> IsUrlChar(u[k])
  }

  /** The scheme lies inside the text and its characters belong to the URL class. */
  lemma {:induction false} SchemeChars(s: string, p: nat)
    requires p <= |s|
    ensures p + SchemeAt(s, p) <= |s|
    ensures forall i :: p <= i < p + SchemeAt(s, p) ==> IsUrlChar(s[i])
  {
    var k := SchemeAt(s, p);
    forall i | p <= i < p + k
      ensures IsUrlChar(s[i])
    {
      assert i == p || i == p + 1 || i == p + 2 || i == p + 3 || i == p + 4 || i == p + 5 || i == p + 6 || i == p + 7;
    }
  }

  /** A slice that starts at `p` and reaches past the scheme there has the same scheme. */
  lemma {:induction false} SchemeOfSlice(s: string, p: nat, n: nat)
    requires p + n <= |s| && SchemeAt(s, p) < n
    ensures SchemeAt(s[p..p + n], 0) == SchemeAt(s, p)
  {
    var u := s[p..p + n];
    assert forall i :: 0 <= i < n ==> u[i] == s[p + i];
  }


  /** The length of the regex match that starts at `p`, or 0 when none starts there. */
  function MatchLen(s: string, p: nat): (n: nat)
    requires p <= |s|
    ensures p + n <= |s|
  {
    var k := SchemeAt(s, p);
    if k == 0 then 0
    else if p + k < |s| && IsUrlChar(s[p + k]) then k + UrlRun(s, p + k) else 0
  }

  /** A match is a scheme followed by URL characters, and the greedy class run makes it as
      long as possible. */
  lemma {:induction false} MatchLenShape(s: string, p: nat)
    requires p <= |s|
    ensures var n := MatchLen(s, p);
      n > 0 ==> (0 < SchemeAt(s, p) < n
                 && (forall k :: p <= k < p + n ==> IsUrlChar(s[k]))
                 && (p + n == |s| || !IsUrlChar(s[p + n])))
  {
    SchemeChars(s, p);
    var k := SchemeAt(s, p);
    if k > 0 {
      UrlRunShape(s, p + k);
    }
  }

  /** A match is a link text. */
  lemma {:induction false} MatchIsLinkText(s: string, p: nat)
    requires p <= |s| && MatchLen(s, p) > 0
    ensures IsLinkText(s[p..p + MatchLen(s, p)])
  {
    var n := MatchLen(s, p);
    MatchLenShape(s, p);
    SchemeOfSlice(s, p, n);
  }

  /** The outcome of one `exec`: no match, or the index and length of one. */
  datatype Match = NoMatch | Found(index: nat, len: nat)

  /** `regex.exec(text)` with `lastIndex == from`: the first match at or after `from`, as
      its index and length. */
  function NextMatch(s: string, from: nat): (m: Match)
    requires from <= |s|
    ensures m.Found? ==> from <= m.index && 0 < m.len && m.index + m.len <= |s|
    ensures m.Found? ==> MatchLen(s, m.index) == m.len
    decreases |s| - from
  {
    var n := MatchLen(s, from);
    if n > 0 then Found(from, n)
    else if from == |s| then NoMatch
    else NextMatch(s, from + 1)
  }

  /** The match `exec` finds is the leftmost one, and when it finds none there is none. */
  lemma {:induction false} NextMatchLeftmost(s: string, from: nat)
    requires from <= |s|
    ensures var m := NextMatch(s, from);
      (m.Found? ==> forall q :: from <= q < m.index ==> MatchLen(s, q) == 0)
      && (m.NoMatch? ==> forall q :: from <= q <= |s| ==> MatchLen(s, q) == 0)
    decreases |s| - from
  {
    var m := NextMatch(s, from);
    if MatchLen(s, from) > 0 {
      assert m == Found(from, MatchLen(s, from));
    } else if from == |s| {
      assert m.NoMatch?;
    } else {
      assert m == NextMatch(s, from + 1);
      NextMatchLeftmost(s, from + 1);
    }
  }

  /** `url.startsWith('http') ? url : https://${url}`. */
  function Href(u: string): string {
    if JsString.StartsWith(u, "http") then u else "https://" + u
  }

  /** A node of the first stage: non-empty text, or a link whose text is a match and whose
      href follows the rule above. */
  predicate TokenOk(n: Node) {
    match n
    case Text(t) => t != ""
    case Link(h, u) => IsLinkText(u) && h == Href(u)
    case Br => false
  }

  /** The nodes the `while` loop and the tail push, from `lastIndex == from` on, after the
      nodes `acc` already pushed: the text before each match `exec` finds, the match's link,
      and the text after the last one. */
  function Pushed(s: string, from: nat, acc: seq<Node>): seq<Node>
    requires from <= |s|
    decreases |s| - from
  {
    var m := NextMatch(s, from);
    if m.NoMatch? then acc + Gap(s, from, |s|)
    else Pushed(s, m.index + m.len, acc + Gap(s, from, m.index) + [LinkOf(s[m.index..m.index + m.len])])
  }

  /** One turn of the `while` loop: the gap before the match and its link are pushed. */
  lemma {:induction false} PushedStep(s: string, from: nat, acc: seq<Node>, idx: nat, len: nat, next: nat, acc': seq<Node>)
    requires from <= |s| && NextMatch(s, from) == Found(idx, len) && next == idx + len
    requires next <= |s| && acc' == acc + Gap(s, from, idx) + [LinkOf(s[idx..next])]
    ensures Pushed(s, from, acc) == Pushed(s, next, acc')
  {
  }

  /** The nodes of the first stage. */
  function Tokenize(s: string): seq<Node> {
    Pushed(s, 0, [])
  }

  /** The text between two matches, pushed only when non-empty. */
  function Gap(s: string, from: nat, to: nat): seq<Node>
    requires from <= to <= |s|
  {
    if to > from then [Text(s[from..to])] else []
  }

  /** The `<a>` element of a match. */
  function LinkOf(u: string): Node {
    Link(Href(u), u)
  }

  // ---------------------------------------------------------------- rendering

  /** The characters a node shows, a line break being `\n`. */
  function Shown(n: Node): string {
    match n
    case Text(t) => t
    case Link(_, u) => u
    case Br => "\n"
  }

  function Render(nodes: seq<Node>): string {
    if nodes == [] then "" else Shown(nodes[0]) + Render(nodes[1..])
  }

  lemma {:induction false} RenderAppend(a: seq<Node>, b: seq<Node>)
    ensures Render(a + b) == Render(a) + Render(b)
    decreases |a|
  {
    if a == [] {
      assert a + b == b;
    } else {
      assert (a + b)[0] == a[0];
      assert (a + b)[1..] == a[1..] + b;
      RenderAppend(a[1..], b);
    }
  }

  lemma {:induction false} RenderSingle(n: Node)
    ensures Render([n]) == Shown(n)
  {
    assert [n][1..] == [];
  }

  /** Showing one more node at the end. */
  lemma {:induction false} RenderSnoc(init: seq<Node>, last: Node)
    ensures Render(init + [last]) == Render(init) + Shown(last)
  {
    RenderAppend(init, [last]);
    RenderSingle(last);
  }

  lemma {:induction false} RenderGap(s: string, from: nat, to: nat)
    requires from <= to <= |s|
    ensures Render(Gap(s, from, to)) == s[from..to]
  {
    if to > from {
      RenderSingle(Text(s[from..to]));
    }
  }

  lemma {:induction false} SliceThree(s: string, a: nat, b: nat, c: nat)
    requires a <= b <= c <= |s|
    ensures s[a..] == s[a..b] + s[b..c] + s[c..]
  {
  }

  /** The text pieces and link texts, in order, are the rest of the text again. */
  lemma {:induction false} PushedRender(s: string, from: nat, acc: seq<Node>)
    requires from <= |s|
    ensures Render(Pushed(s, from, acc)) == Render(acc) + s[from..]
    decreases |s| - from
  {
    var m := NextMatch(s, from);
    if m.NoMatch? {
      RenderAppend(acc, Gap(s, from, |s|));
      RenderGap(s, from, |s|);
      assert s[from..] == s[from..|s|];
    } else {
      var p := m.index;
      var q := p + m.len;
      var link := LinkOf(s[p..q]);
      var gap := Gap(s, from, p);
      var acc' := acc + gap + [link];
      PushedRender(s, q, acc');
      calc {
        Render(acc');
        { RenderAppend(acc + gap, [link]); RenderAppend(acc, gap); }
        Render(acc) + Render(gap) + Render([link]);
        { RenderGap(s, from, p); RenderSingle(link); }
        Render(acc) + s[from..p] + s[p..q];
      }
      calc {
        Render(Pushed(s, from, acc));
        { PushedStep(s, from, acc, p, m.len, q, acc'); }
        Render(Pushed(s, q, acc'));
        Render(acc') + s[q..];
        Render(acc) + s[from..p] + s[p..q] + s[q..];
        { Assoc4(Render(acc), s[from..p], s[p..q], s[q..]); }
        Render(acc) + (s[from..p] + s[p..q] + s[q..]);
        { SliceThree(s, from, p, q); }
        Render(acc) + s[from..];
      }
    }
  }

  lemma {:induction false} Assoc4(a: string, b: string, c: string, d: string)
    ensures a + b + c + d == a + (b + c + d)
  {
  }

  lemma {:induction false} TokenizeRender(s: string)
    ensures Render(Tokenize(s)) == s
  {
    PushedRender(s, 0, []);
    assert s[0..] == s;
  }

  // ---------------------------------------------------------------- newline stage

  /** `parts.forEach((p, j) => { if (j > 0) br; if (p) p })` for the first `j` parts. */
  function Pieces(parts: seq<string>, j: nat): seq<Node>
    requires j <= |parts|
  {
    if j == 0 then []
    else Pieces(parts, j - 1) + (if j - 1 > 0 then [Br] else []) + (if parts[j - 1] != "" then [Text(parts[j - 1])] else [])
  }

  /** What one node of the first stage becomes. */
  function ExpandNode(n: Node): seq<Node> {
    match n
    case Text(t) =>
      var parts := JsString.Split(t, '\n');
      Pieces(parts, |parts|)
    case _ => [n]
  }

  function Expanded(nodes: seq<Node>): seq<Node> {
    if nodes == [] then [] else Expanded(nodes[..|nodes| - 1]) + ExpandNode(nodes[|nodes| - 1])
  }

  /** The loop's first half: the regex scan that pushes text pieces and links. */
  method Scan(s: string) returns (nodes: seq<Node>)
    ensures nodes == Tokenize(s)
  {
    nodes := [];
    var lastIndex: nat := 0;
    var m := NextMatch(s, 0);
    while m.Found?
      invariant lastIndex <= |s|
      invariant m == NextMatch(s, lastIndex)
      invariant Pushed(s, lastIndex, nodes) == Tokenize(s)
      decreases |s| - lastIndex
    {
      var idx := m.index;
      var len := m.len;
      var url := s[idx..idx + len];
      ghost var before := nodes;
      ghost var from := lastIndex;
      if idx > lastIndex {
        nodes := nodes + [Text(s[lastIndex..idx])];
      } else {
        assert before + Gap(s, lastIndex, idx) == before;
      }
      assert nodes == before + Gap(s, lastIndex, idx);
      nodes := nodes + [Link(Href(url), url)];
      assert nodes == before + Gap(s, lastIndex, idx) + [LinkOf(url)];
      lastIndex := idx + len;
      assert url == s[idx..lastIndex];
      assert nodes == before + Gap(s, from, idx) + [LinkOf(s[idx..lastIndex])];
      PushedStep(s, from, before, idx, len, lastIndex, nodes);
      m := NextMatch(s, lastIndex);
    }
    assert Pushed(s, lastIndex, nodes) == nodes + Gap(s, lastIndex, |s|);
    if lastIndex < |s| {
      assert s[lastIndex..] == s[lastIndex..|s|];
      nodes := nodes + [Text(s[lastIndex..])];
    } else {
      assert nodes + Gap(s, lastIndex, |s|) == nodes;
    }
  }

  /** linkify(text): null for undefined or ''. */
  method Linkify(text: Option<string>) returns (r: Option<seq<Node>>)
    ensures !Truthy(text) ==> r.None?
    ensures Truthy(text) ==> r == Some(Expanded(Tokenize(text.value)))
  {
    if !Truthy(text) {
      return None;
    }
    var nodes := Scan(text.value);
    var result := BreakLines(nodes);
    return Some(result);
  }

  /** The `nodes.forEach` that builds `final`. */
  method BreakLines(nodes: seq<Node>) returns (result: seq<Node>)
    ensures result == Expanded(nodes)
  {
    result := [];
    var i := 0;
    while i < |nodes|
      invariant 0 <= i <= |nodes|
      invariant result == Expanded(nodes[..i])
    {
      assert nodes[..i + 1][..i] == nodes[..i];
      match nodes[i] {
        case Text(t) =>
          var parts := JsString.Split(t, '\n');
          var j := 0;
          ghost var before := result;
          while j < |parts|
            invariant 0 <= j <= |parts|
            invariant result == before + Pieces(parts, j)
          {
            if j > 0 {
              result := result + [Br];
            }
            if parts[j] != "" {
              result := result + [Text(parts[j])];
            }
            j := j + 1;
          }
        case _ =>
          result := result + [nodes[i]];
      }
      i := i + 1;
    }
    assert nodes[..i] == nodes;
  }

  // ---------------------------------------------------------------- the newline stage's properties

  /** Glueing one more part on at the end. */
  lemma {:induction false} JoinSnoc(parts: seq<string>, p: string, sep: char)
    ensures JsString.Join(parts + [p], sep) == if parts == [] then p else JsString.Join(parts, sep) + [sep] + p
    decreases |parts|
  {
    if |parts| > 1 {
      assert (parts + [p])[1..] == parts[1..] + [p];
      JoinSnoc(parts[1..], p, sep);
    } else if |parts| == 1 {
      assert parts + [p] == [parts[0], p];
    }
  }

  /** The pieces of one text show the parts joined with `\n`, that is the text itself. */
  lemma {:induction false} PiecesRender(parts: seq<string>, j: nat)
    requires j <= |parts|
    ensures Render(Pieces(parts, j)) == JsString.Join(parts[..j], '\n')
  {
    if j > 0 {
      PiecesRender(parts, j - 1);
      var br: seq<Node> := if j - 1 > 0 then [Br] else [];
      var tx: seq<Node> := if parts[j - 1] != "" then [Text(parts[j - 1])] else [];
      RenderAppend(Pieces(parts, j - 1) + br, tx);
      RenderAppend(Pieces(parts, j - 1), br);
      RenderSingle(Br);
      RenderSingle(Text(parts[j - 1]));
      assert parts[..j] == parts[..j - 1] + [parts[j - 1]];
      JoinSnoc(parts[..j - 1], parts[j - 1], '\n');
    }
  }

  lemma {:induction false} ExpandNodeRender(n: Node)
    ensures Render(ExpandNode(n)) == Shown(n)
  {
    match n
    case Text(t) =>
      var parts := JsString.Split(t, '\n');
      PiecesRender(parts, |parts|);
      assert parts[..|parts|] == parts;
    case _ =>
      assert [n][1..] == [];
  }

  /** Replacing each text node by its lines and breaks shows the same characters. */
  lemma {:induction false} ExpandedRender(nodes: seq<Node>)
    ensures Render(Expanded(nodes)) == Render(nodes)
  {
    if nodes != [] {
      var init := nodes[..|nodes| - 1];
      var last := nodes[|nodes| - 1];
      calc {
        Render(Expanded(nodes));
        Render(Expanded(init) + ExpandNode(last));
        { RenderAppend(Expanded(init), ExpandNode(last)); }
        Render(Expanded(init)) + Render(ExpandNode(last));
        { ExpandedRender(init); ExpandNodeRender(last); }
        Render(init) + Shown(last);
        { RenderSnoc(init, last); }
        Render(init + [last]);
        { assert nodes == init + [last]; }
        Render(nodes);
      }
    }
  }

  /** A node of the final list: a non-empty line, a break, or a link as the first stage made it. */
  predicate FinalOk(n: Node) {
    match n
    case Text(t) => t != "" && '\n' !in t
    case Link(h, u) => IsLinkText(u) && h == Href(u)
    case Br => true
  }

  lemma {:induction false} PiecesOk(parts: seq<string>, j: nat)
    requires j <= |parts|
    requires forall k :: 0 <= k < |parts| ==> '\n' !in parts[k]
    ensures forall k :: 0 <= k < |Pieces(parts, j)| ==> FinalOk(Pieces(parts, j)[k])
  {
    if j > 0 {
      PiecesOk(parts, j - 1);
    }
  }

  lemma {:induction false} ExpandedOk(nodes: seq<Node>)
    requires TokensOk(nodes)
    ensures forall k :: 0 <= k < |Expanded(nodes)| ==> FinalOk(Expanded(nodes)[k])
  {
    if nodes != [] {
      var init := nodes[..|nodes| - 1];
      ExpandedOk(init);
      var last := nodes[|nodes| - 1];
      assert TokenOk(last);
      if last.Text? {
        var parts := JsString.Split(last.text, '\n');
        PiecesOk(parts, |parts|);
      }
    }
  }

  /** The links of a node list, in order. */
  function Links(nodes: seq<Node>): seq<Node> {
    if nodes == [] then []
    else Links(nodes[..|nodes| - 1]) + (if nodes[|nodes| - 1].Link? then [nodes[|nodes| - 1]] else [])
  }

  lemma {:induction false} LinksAppend(a: seq<Node>, b: seq<Node>)
    ensures Links(a + b) == Links(a) + Links(b)
    decreases |b|
  {
    if b != [] {
      var b' := b[..|b| - 1];
      assert (a + b)[..|a + b| - 1] == a + b';
      assert (a + b)[|a + b| - 1] == b[|b| - 1];
      LinksAppend(a, b');
    } else {
      assert a + b == a;
    }
  }

  lemma {:induction false} PiecesHaveNoLinks(parts: seq<string>, j: nat)
    requires j <= |parts|
    ensures Links(Pieces(parts, j)) == []
  {
    if j > 0 {
      PiecesHaveNoLinks(parts, j - 1);
      var br: seq<Node> := if j - 1 > 0 then [Br] else [];
      var tx: seq<Node> := if parts[j - 1] != "" then [Text(parts[j - 1])] else [];
      LinksAppend(Pieces(parts, j - 1) + br, tx);
      LinksAppend(Pieces(parts, j - 1), br);
      assert Links(br) == [] by {
        if j - 1 > 0 {
          assert Links(br) == Links([]) + [];
        }
      }
      assert Links(tx) == [] by {
        if parts[j - 1] != "" {
          assert Links(tx) == Links([]) + [];
        }
      }
    }
  }

  /** Links pass through the newline stage unchanged and in the same order. */
  lemma {:induction false} ExpandedKeepsLinks(nodes: seq<Node>)
    ensures Links(Expanded(nodes)) == Links(nodes)
  {
    if nodes != [] {
      var init := nodes[..|nodes| - 1];
      var last := nodes[|nodes| - 1];
      ExpandedKeepsLinks(init);
      LinksAppend(Expanded(init), ExpandNode(last));
      if last.Text? {
        var parts := JsString.Split(last.text, '\n');
        PiecesHaveNoLinks(parts, |parts|);
      } else {
        assert Links([last]) == Links([]) + (if last.Link? then [last] else []);
      }
    }
  }

  // ---------------------------------------------------------------- counting breaks

  function CountChar(s: string, c: char): nat {
    if s == [] then 0 else CountChar(s[..|s| - 1], c) + (if s[|s| - 1] == c then 1 else 0)
  }

  lemma {:induction false} CountCharAppend(a: string, b: string, c: char)
    ensures CountChar(a + b, c) == CountChar(a, c) + CountChar(b, c)
    decreases |b|
  {
    if b != [] {
      assert (a + b)[..|a + b| - 1] == a + b[..|b| - 1];
      assert (a + b)[|a + b| - 1] == b[|b| - 1];
      CountCharAppend(a, b[..|b| - 1], c);
    } else {
      assert a + b == a;
    }
  }

  lemma {:induction false} CountCharAbsent(s: string, c: char)
    requires forall k :: 0 <= k < |s| ==> s[k] != c
    ensures CountChar(s, c) == 0
  {
    if s != [] {
      CountCharAbsent(s[..|s| - 1], c);
    }
  }

  /** A node of the final list shows a newline exactly when it is a break. */
  lemma {:induction false} ShownNewlines(n: Node)
    requires FinalOk(n)
    ensures CountChar(Shown(n), '\n') == if n.Br? then 1 else 0
  {
    match n
    case Text(t) => CountCharAbsent(t, '\n');
    case Link(_, u) => CountCharAbsent(u, '\n');
    case Br =>
      assert CountChar("\n", '\n') == CountChar("", '\n') + 1;
  }

  function CountBr(nodes: seq<Node>): nat {
    if nodes == [] then 0 else CountBr(nodes[..|nodes| - 1]) + (if nodes[|nodes| - 1].Br? then 1 else 0)
  }

  /** In the final list every `\n` shown comes from a break. */
  lemma {:induction false} BreaksAreNewlines(nodes: seq<Node>)
    requires forall k :: 0 <= k < |nodes| ==> FinalOk(nodes[k])
    ensures CountBr(nodes) == CountChar(Render(nodes), '\n')
  {
    if nodes != [] {
      var init := nodes[..|nodes| - 1];
      var last := nodes[|nodes| - 1];
      calc {
        CountChar(Render(nodes), '\n');
        { assert nodes == init + [last]; RenderSnoc(init, last); }
        CountChar(Render(init) + Shown(last), '\n');
        { CountCharAppend(Render(init), Shown(last), '\n'); }
        CountChar(Render(init), '\n') + CountChar(Shown(last), '\n');
        { BreaksAreNewlines(init); ShownNewlines(last); }
        CountBr(init) + (if last.Br? then 1 else 0);
      }
    }
  }

  predicate TokensOk(nodes: seq<Node>) {
    forall k :: 0 <= k < |nodes| ==> TokenOk(nodes[k])
  }

  lemma {:induction false} TokensOkAppend(a: seq<Node>, b: seq<Node>)
    requires TokensOk(a) && TokensOk(b)
    ensures TokensOk(a + b)
  {
    assert forall k :: |a| <= k < |a + b| ==> (a + b)[k] == b[k - |a|];
  }

  lemma {:induction false} LinkOk(s: string, p: nat, q: nat)
    requires p <= |s| && MatchLen(s, p) > 0 && q == p + MatchLen(s, p)
    ensures TokensOk([LinkOf(s[p..q])])
  {
    MatchIsLinkText(s, p);
  }

  /** Every node of the first stage is non-empty text or a link whose text is a match and
      whose href follows the `http` rule. */
  lemma {:induction false} PushedOk(s: string, from: nat, acc: seq<Node>)
    requires from <= |s| && TokensOk(acc)
    ensures TokensOk(Pushed(s, from, acc))
    decreases |s| - from
  {
    var m := NextMatch(s, from);
    if m.NoMatch? {
      TokensOkAppend(acc, Gap(s, from, |s|));
    } else {
      var p := m.index;
      var q := p + m.len;
      var acc' := acc + Gap(s, from, p) + [LinkOf(s[p..q])];
      LinkOk(s, p, q);
      TokensOkAppend(acc, Gap(s, from, p));
      TokensOkAppend(acc + Gap(s, from, p), [LinkOf(s[p..q])]);
      PushedOk(s, q, acc');
      PushedStep(s, from, acc, p, m.len, q, acc');
    }
  }

  lemma {:induction false} TokenizeOk(s: string)
    ensures TokensOk(Tokenize(s))
  {
    PushedOk(s, 0, []);
  }

  /** The whole of linkify: the result shows the input exactly (breaks standing for
      newlines), it has exactly one break per newline of the input, its lines are
      non-empty and newline-free, its links are well formed, and its links are those of the
      first stage in order. */
  lemma {:induction false} LinkifySound(s: string)
    ensures var out := Expanded(Tokenize(s));
      Render(out) == s
      && CountBr(out) == CountChar(s, '\n')
      && (forall k :: 0 <= k < |out| ==> FinalOk(out[k]))
      && Links(out) == Links(Tokenize(s))
  {
    var nodes := Tokenize(s);
    var out := Expanded(nodes);
    TokenizeRender(s);
    TokenizeOk(s);
    ExpandedRender(nodes);
    ExpandedOk(nodes);
    BreaksAreNewlines(out);
    ExpandedKeepsLinks(nodes);
  }
}
