/**
 What resolving means: a grammar of texts with nested tags, printed and then resolved, gives the
 recursive value of the tree; and every text, whatever it holds, is resolved piece by piece.
*/
module Uuid5RoundTrip {
  import opened Wrappers
  import opened Uuid5Resolver

  // ---------------------------------------------------------------------------------------------
  // Brackets
  // ---------------------------------------------------------------------------------------------

  /**
   The depth reached from `d` by reading `s`, or -1 when a bracket closes nothing, or (unless
   `spaces` allows it) when a space stands at depth 0.
  */
  function Reach(s: string, d: nat, spaces: bool): (r: int)
    ensures r >= -1
  {
    if s == [] then d
    else if Step(d, s[0]) < 0 || (d == 0 && IsSpace(s[0]) && !spaces) then -1
    else Reach(s[1..], Step(d, s[0]), spaces)
  }

  ghost predicate Balanced(s: string) { Reach(s, 0, true) == 0 }

  ghost predicate Token(s: string) { s != [] && Reach(s, 0, false) == 0 }

  lemma {:induction false} ReachConcat(a: string, b: string, d: nat, spaces: bool)
    requires Reach(a, d, spaces) >= 0
    ensures Reach(a + b, d, spaces) == Reach(b, Reach(a, d, spaces), spaces)
  {
    if a == [] {
      assert a + b == b;
    } else {
      assert (a + b)[1..] == a[1..] + b;
      ReachConcat(a[1..], b, Step(d, a[0]), spaces);
    }
  }

  /** Reading one level deeper never meets depth 0, so spaces do not matter there. */
  lemma {:induction false} ReachDeeper(s: string, d: nat, spaces: bool)
    requires Reach(s, d, spaces) >= 0
    ensures Reach(s, d + 1, false) == Reach(s, d, spaces) + 1
    ensures Reach(s, d, true) == Reach(s, d, spaces)
  {
    if s != [] { ReachDeeper(s[1..], Step(d, s[0]), spaces); }
  }

  // ---------------------------------------------------------------------------------------------
  // The scanners on concatenated texts
  // ---------------------------------------------------------------------------------------------

  lemma {:induction false} SplitConcat(t: string, s: string, d: nat, current: string)
    requires Reach(t, d, false) >= 0
    ensures Split(t + s, d, current) == Split(s, Reach(t, d, false), current + t)
  {
    if t == [] {
      assert t + s == s && current + t == current;
    } else {
      assert (t + s)[1..] == t[1..] + s;
      assert current + [t[0]] + t[1..] == current + t;
      SplitConcat(t[1..], s, Step(d, t[0]), current + [t[0]]);
    }
  }

  ghost predicate Spaces(w: string) { forall i :: 0 <= i < |w| ==> IsSpace(w[i]) }

  lemma {:induction false} SplitSpaces(w: string, s: string, current: string)
    requires Spaces(w) && w != []
    ensures Split(w + s, 0, current) == Flush(current) + Split(s, 0, [])
  {
    assert (w + s)[1..] == w[1..] + s;
    if |w| == 1 {
      assert w[1..] + s == s;
    } else {
      SplitSpaces(w[1..], s, []);
    }
  }

  lemma {:induction false} CloseRun(text: string, i: nat, j: nat, d: nat)
    requires i <= j <= |text| && Reach(text[i..j], d, true) >= 0
    ensures Close(text, i, d + 1) == Close(text, j, Reach(text[i..j], d, true) + 1)
    decreases j - i
  {
    if i < j {
      assert text[i..j][1..] == text[i + 1..j];
      CloseRun(text, i + 1, j, Step(d, text[i]));
    }
  }

  /** What stands before the matching `>` is balanced. */
  lemma {:induction false} CloseReach(text: string, i: nat, d: nat)
    requires i <= |text| && Close(text, i, d + 1) < |text|
    ensures Reach(text[i..Close(text, i, d + 1)], d, true) == 0
    decreases |text| - i
  {
    var e := Close(text, i, d + 1);
    if i < e {
      CloseReach(text, i + 1, Step(d + 1, text[i]) - 1);
      assert text[i..e][1..] == text[i + 1..e];
    }
  }

  lemma {:induction false} ReachPlain(s: string, d: nat)
    requires forall i :: 0 <= i < |s| ==> s[i] != '<' && s[i] != '>'
    ensures Reach(s, d, true) == d
  {
    if s != [] { ReachPlain(s[1..], d); }
  }

  /** Past its first bracket, an opening is read without changing the depth. */
  lemma ReachOpening(open: string, content: string)
    requires Opening(open) && Balanced(content)
    ensures Balanced(open[1..] + content)
  {
    ReachPlain(open[1..], 0);
    ReachConcat(open[1..], content, 0, true);
  }

  function Tag(open: string, content: string, rest: string): string {
    open + content + ['>'] + rest
  }

  /** Where the parts of a tag stand in a text that goes on with `before` and that tag. */
  lemma TagAt(open: string, text: string, i: nat, before: string, content: string, rest: string)
    requires i <= |text| && text[i..] == before + Tag(open, content, rest)
    ensures var start := i + |before|;
      var end := start + |open| + |content|;
      && end < |text| && text[end] == '>'
      && text[i..start] == before && text[start + |open|..end] == content && text[end + 1..] == rest
      && OpensAt(open, text, start)
  {
    assert forall j :: 0 <= j < |text| - i ==> text[i + j] == text[i..][j];
  }

  /** The matching `>` of a tag is the one its balanced content runs up to. */
  lemma CloseOfTag(open: string, text: string, start: nat, end: nat, content: string)
    requires Opening(open) && start + |open| <= end < |text| && text[end] == '>'
    requires OpensAt(open, text, start) && text[start + |open|..end] == content && Balanced(content)
    ensures Close(text, start, 0) == end
  {
    assert text[start + 0] == open[0];
    assert text[start + 1..end] == open[1..] + content;
    ReachOpening(open, content);
    CloseRun(text, start + 1, end, 0);
  }

  // ---------------------------------------------------------------------------------------------
  // Texts as trees
  // ---------------------------------------------------------------------------------------------

  /**
   A text holding tags. `Tagged` is a tag with two arguments, each a text of its own, and the
   spaces around them; `Invalid` is a tag whose content does not split into two arguments.
  */
  datatype Text =
    | Plain(text: string)
    | Tagged(before: string, lead: string, ns: Text, gap: string, name: Text, trail: string, after: Text)
    | Invalid(before: string, content: string, after: Text)

  function Print(open: string, t: Text): string {
    match t
    case Plain(text) => text
    case Tagged(before, lead, ns, gap, name, trail, after) =>
      before + Tag(open, lead + Print(open, ns) + gap + Print(open, name) + trail, Print(open, after))
    case Invalid(before, content, after) => before + Tag(open, content, Print(open, after))
  }

  /** What a text stands for: every tag replaced by the UUIDv5 of the values of its arguments. */
  function Value(uuid5: Uuid5, t: Text): string {
    match t
    case Plain(text) => text
    case Tagged(before, _, ns, _, name, _, after) =>
      before + Answer(uuid5, Value(uuid5, ns), Value(uuid5, name)) + Value(uuid5, after)
    case Invalid(before, content, after) => before + ("<invalid-v5 " + content + ">") + Value(uuid5, after)
  }

  function Answer(uuid5: Uuid5, ns: string, name: string): string {
    match uuid5(ns, name)
    case Some(id) => id
    case None => "<error-" + ns + ">"
  }

  /** A literal does not open a tag; inside an argument its brackets match and it holds no bare space. */
  ghost predicate Literal(open: string, s: string, inArgument: bool) {
    (forall k :: 0 <= k < |s| ==> !OpensAt(open, s, k)) && (inArgument ==> Reach(s, 0, false) == 0)
  }

  ghost predicate WellFormed(open: string, t: Text, inArgument: bool) {
    match t
    case Plain(text) => Literal(open, text, inArgument)
    case Tagged(before, lead, ns, gap, name, trail, after) =>
      && Literal(open, before, inArgument) && Spaces(lead) && Spaces(gap) && Spaces(trail) && gap != []
      && WellFormed(open, ns, true) && Print(open, ns) != [] && WellFormed(open, name, true) && Print(open, name) != []
      && WellFormed(open, after, inArgument)
    case Invalid(before, content, after) =>
      && Literal(open, before, inArgument) && Balanced(content) && |Split(content, 0, [])| != 2
      && WellFormed(open, after, inArgument)
  }

  lemma {:induction false} ReachSpaces(w: string)
    requires Spaces(w)
    ensures Reach(w, 0, true) == 0
  {
    if w != [] { ReachSpaces(w[1..]); }
  }

  lemma BalancedConcat(a: string, b: string)
    requires Balanced(a) && Balanced(b)
    ensures Balanced(a + b)
  {
    ReachConcat(a, b, 0, true);
  }

  function Content(open: string, t: Text): string
    requires t.Tagged?
  {
    t.lead + Print(open, t.ns) + t.gap + Print(open, t.name) + t.trail
  }

  lemma BalancedContent(open: string, t: Text)
    requires t.Tagged? && Spaces(t.lead) && Spaces(t.gap) && Spaces(t.trail)
    requires Reach(Print(open, t.ns), 0, false) == 0 && Reach(Print(open, t.name), 0, false) == 0
    ensures Balanced(Content(open, t))
  {
    ReachSpaces(t.lead);
    ReachSpaces(t.gap);
    ReachSpaces(t.trail);
    ReachDeeper(Print(open, t.ns), 0, false);
    ReachDeeper(Print(open, t.name), 0, false);
    BalancedConcat(t.lead, Print(open, t.ns));
    BalancedConcat(t.lead + Print(open, t.ns), t.gap);
    BalancedConcat(t.lead + Print(open, t.ns) + t.gap, Print(open, t.name));
    BalancedConcat(t.lead + Print(open, t.ns) + t.gap + Print(open, t.name), t.trail);
  }

  /** A printed tag with balanced content reads as one closed bracket pair. */
  lemma ReachTag(open: string, content: string, rest: string)
    requires Opening(open) && Balanced(content)
    ensures Reach(Tag(open, content, rest), 0, false) == Reach(rest, 0, false)
  {
    var inner := open[1..] + content;
    assert Tag(open, content, rest) == ['<'] + (inner + (['>'] + rest));
    ReachOpening(open, content);
    ReachDeeper(inner, 0, true);
    ReachConcat(inner, ['>'] + rest, 1, false);
    assert (['>'] + rest)[1..] == rest;
  }

  lemma {:induction false} PrintedArgument(open: string, t: Text)
    requires Opening(open)
    requires WellFormed(open, t, true)
    ensures Reach(Print(open, t), 0, false) == 0
  {
    match t
    case Plain(_) =>
    case Tagged(before, lead, ns, gap, name, trail, after) =>
      PrintedArgument(open, ns);
      PrintedArgument(open, name);
      PrintedArgument(open, after);
      BalancedContent(open, t);
      ReachTag(open, Content(open, t), Print(open, after));
      ReachConcat(before, Tag(open, Content(open, t), Print(open, after)), 0, false);
    case Invalid(before, content, after) =>
      PrintedArgument(open, after);
      ReachTag(open, content, Print(open, after));
      ReachConcat(before, Tag(open, content, Print(open, after)), 0, false);
  }

  lemma SplitTrail(trail: string, name: string)
    requires Spaces(trail) && name != []
    ensures Split(trail, 0, name) == [name]
  {
    if trail != [] {
      assert trail + [] == trail;
      SplitSpaces(trail, [], name);
    }
  }

  /** The content of a tag splits back into its two arguments. */
  lemma SplitContent(open: string, t: Text)
    requires t.Tagged? && Spaces(t.lead) && Spaces(t.gap) && Spaces(t.trail) && t.gap != []
    requires Print(open, t.ns) != [] && Print(open, t.name) != []
    requires Reach(Print(open, t.ns), 0, false) == 0 && Reach(Print(open, t.name), 0, false) == 0
    ensures Split(Content(open, t), 0, []) == [Print(open, t.ns), Print(open, t.name)]
  {
    var ns, name := Print(open, t.ns), Print(open, t.name);
    var afterName, afterNs := name + t.trail, ns + (t.gap + (name + t.trail));
    assert Content(open, t) == t.lead + afterNs;
    if t.lead != [] {
      SplitSpaces(t.lead, afterNs, []);
    } else {
      assert t.lead + afterNs == afterNs;
    }
    SplitConcat(ns, t.gap + afterName, 0, []);
    assert [] + ns == ns;
    SplitSpaces(t.gap, afterName, ns);
    SplitConcat(name, t.trail, 0, []);
    assert [] + name == name;
    SplitTrail(t.trail, name);
  }

  lemma {:induction false} ScanSkips(open: string, text: string, i: nat, j: nat)
    requires Opening(open) && i <= j <= |text|
    requires forall k :: i <= k < j ==> !OpensAt(open, text, k)
    ensures Scan(open, text, i) == Scan(open, text, j)
    decreases j - i
  {
    if i < j { ScanSkips(open, text, i + 1, j); }
  }

  /** No tag opens inside a literal, not even one running into the tag that follows it. */
  lemma LiteralSkipped(open: string, text: string, i: nat, start: nat, k: nat)
    requires Opening(open) && i <= k < start <= |text|
    requires forall m :: 0 <= m < start - i ==> !OpensAt(open, text[i..start], m)
    requires start == |text| || text[start] == '<'
    ensures !OpensAt(open, text, k)
  {
    if k + |open| <= start {
      var s := text[i..start];
      assert !OpensAt(open, s, k - i);
      assert forall m :: 0 <= m < |s| ==> s[m] == text[i + m];
    } else if start < |text| {
      assert text[k + (start - k)] == '<' != open[start - k];
    }
  }

  lemma ScanTag(open: string, text: string, i: nat, before: string, content: string, rest: string)
    requires Opening(open) && Balanced(content)
    requires forall k :: 0 <= k < |before| ==> !OpensAt(open, before, k)
    requires i <= |text| && text[i..] == before + Tag(open, content, rest)
    ensures Scan(open, text, i) == Closed(i + |before|, i + |before| + |open| + |content|)
  {
    var start := i + |before|;
    var end := start + |open| + |content|;
    TagAt(open, text, i, before, content, rest);
    CloseOfTag(open, text, start, end, content);
    ScanFrom(open, text, i, start, before);
  }

  lemma ScanFrom(open: string, text: string, i: nat, start: nat, before: string)
    requires Opening(open) && i <= start < |text| && OpensAt(open, text, start) && text[i..start] == before
    requires forall m :: 0 <= m < |before| ==> !OpensAt(open, before, m)
    ensures Scan(open, text, i) == Scan(open, text, start)
  {
    assert text[start + 0] == open[0];
    forall k | i <= k < start ensures !OpensAt(open, text, k) { LiteralSkipped(open, text, i, start, k); }
    ScanSkips(open, text, i, start);
  }

  lemma ScanPlain(open: string, text: string, i: nat)
    requires Opening(open) && i <= |text|
    requires forall k :: 0 <= k < |text| - i ==> !OpensAt(open, text[i..], k)
    ensures Scan(open, text, i) == NoTag
  {
    assert text[i..] == text[i..|text|];
    forall k | i <= k < |text| ensures !OpensAt(open, text, k) { LiteralSkipped(open, text, i, |text|, k); }
    ScanSkips(open, text, i, |text|);
  }

  // ---------------------------------------------------------------------------------------------
  // Any text at all
  // ---------------------------------------------------------------------------------------------

  /** A text cut in order: stretches copied as they are, each followed by a tag to replace or not. */
  datatype Pieces =
    | Last(kept: string)
    | Replaced(kept: string, content: string, rest: Pieces)
    | Stray(kept: string, rest: Pieces)

  function Cut(open: string, text: string, i: nat): Pieces
    requires Opening(open) && i <= |text|
    decreases |text| - i
  {
    match Scan(open, text, i)
    case NoTag => Last(text[i..])
    case Closed(start, end) => Replaced(text[i..start], text[start + |open|..end], Cut(open, text, end + 1))
    case Unclosed(start) => Stray(text[i..start + 1], Cut(open, text, start + 1))
  }

  function Source(open: string, ps: Pieces): string {
    match ps
    case Last(kept) => kept
    case Replaced(kept, content, rest) => kept + Tag(open, content, Source(open, rest))
    case Stray(kept, rest) => kept + Source(open, rest)
  }

  function Output(open: string, uuid5: Uuid5, ps: Pieces): string
    requires Opening(open)
  {
    match ps
    case Last(kept) => kept
    case Replaced(kept, content, rest) => kept + Process(open, uuid5, content) + Output(open, uuid5, rest)
    case Stray(kept, rest) => kept + Output(open, uuid5, rest)
  }

  /** Every replaced content is balanced, and so is each argument split from it. */
  ghost predicate ContentsBalanced(ps: Pieces) {
    match ps
    case Last(_) => true
    case Replaced(_, content, rest) =>
      Balanced(content) && (forall a :: a in Split(content, 0, []) ==> Token(a)) && ContentsBalanced(rest)
    case Stray(_, rest) => ContentsBalanced(rest)
  }

  /** The text between an opening and the end found for it is a balanced content. */
  lemma TagSound(open: string, text: string, start: nat, end: nat)
    requires Opening(open) && OpensAt(open, text, start) && Close(text, start, 0) == end < |text|
    ensures start + |open| <= end && Balanced(text[start + |open|..end])
  {
    ClosePastOpen(open, text, start);
    var content, inner := text[start + |open|..end], text[start + 1..end];
    assert text[start + 0] == open[0];
    CloseReach(text, start + 1, 0);
    assert inner == open[1..] + content;
    ReachPlain(open[1..], 0);
    ReachConcat(open[1..], content, 0, true);
  }

  lemma {:induction false} ScanSound(open: string, text: string, i: nat)
    requires Opening(open) && i <= |text|
    ensures var r := Scan(open, text, i);
      && (!r.NoTag? ==> OpensAt(open, text, r.start))
      && (r.Closed? ==> Balanced(text[r.start + |open|..r.end]) && text[r.end] == '>')
    decreases |text| - i
  {
    if i < |text| {
      if OpensAt(open, text, i) {
        if Close(text, i, 0) < |text| { TagSound(open, text, i, Close(text, i, 0)); }
      } else {
        ScanSound(open, text, i + 1);
      }
    }
  }

  lemma TagStretch(open: string, text: string, i: nat, start: nat, end: nat)
    requires i <= start <= start + |open| <= end < |text| && OpensAt(open, text, start) && text[end] == '>'
    ensures text[i..] == text[i..start] + Tag(open, text[start + |open|..end], text[end + 1..])
  {
    assert text[start..start + |open|] == open;
  }

  lemma ClosedSource(open: string, text: string, i: nat)
    requires Opening(open) && i <= |text| && Scan(open, text, i).Closed?
    requires var end := Scan(open, text, i).end; Source(open, Cut(open, text, end + 1)) == text[end + 1..]
    ensures Source(open, Cut(open, text, i)) == text[i..]
  {
    hide Scan, Close, OpensAt;
    var ps, r := Cut(open, text, i), Scan(open, text, i);
    var tag := Tag(open, ps.content, text[r.end + 1..]);
    assert Source(open, ps) == ps.kept + tag;
    assert text[i..] == ps.kept + tag by {
      ScanSound(open, text, i);
      TagStretch(open, text, i, r.start, r.end);
    }
  }

  lemma {:induction false} CutSource(open: string, text: string, i: nat)
    requires Opening(open) && i <= |text|
    ensures Source(open, Cut(open, text, i)) == text[i..]
    decreases |text| - i
  {
    var ps, r := Cut(open, text, i), Scan(open, text, i);
    if r.Closed? {
      CutSource(open, text, r.end + 1);
      ClosedSource(open, text, i);
    } else if r.Unclosed? {
      CutSource(open, text, r.start + 1);
      var rest := text[r.start + 1..];
      assert Source(open, ps) == ps.kept + rest;
      assert text[i..] == ps.kept + rest;
    }
  }

  lemma {:induction false} CutOutput(open: string, uuid5: Uuid5, text: string, i: nat, done: string)
    requires Opening(open) && i <= |text|
    ensures Resolve(open, uuid5, text, i, done) == done + Output(open, uuid5, Cut(open, text, i))
    decreases |text| - i
  {
    var ps := Cut(open, text, i);
    var r := Scan(open, text, i);
    if r.Closed? {
      var before, value := ps.kept, Process(open, uuid5, ps.content);
      var rest := Output(open, uuid5, ps.rest);
      CutOutput(open, uuid5, text, r.end + 1, done + before + value);
      assert Resolve(open, uuid5, text, i, done) == done + before + value + rest;
      Regroup(done, before, value, rest);
    } else if r.Unclosed? {
      var before, value := text[i..r.start], [text[r.start]];
      var rest := Output(open, uuid5, ps.rest);
      CutOutput(open, uuid5, text, r.start + 1, done + before + value);
      assert Resolve(open, uuid5, text, i, done) == done + before + value + rest;
      assert ps.kept == before + value;
      Regroup(done, before, value, rest);
    }
  }

  lemma {:induction false} CutBalanced(open: string, text: string, i: nat)
    requires Opening(open) && i <= |text|
    ensures ContentsBalanced(Cut(open, text, i))
    decreases |text| - i
  {
    ScanSound(open, text, i);
    match Scan(open, text, i)
    case NoTag =>
    case Closed(start, end) =>
      ArgumentsAreTokens(text[start + |open|..end], 0, []);
      CutBalanced(open, text, end + 1);
    case Unclosed(start) => CutBalanced(open, text, start + 1);
  }

  /** The arguments of a balanced content are non-empty, balanced, and hold no space outside brackets. */
  lemma {:induction false} ArgumentsAreTokens(s: string, d: nat, current: string)
    requires Reach(s, d, true) == 0 && Reach(current, 0, false) == d
    ensures forall a :: a in Split(s, d, current) ==> Token(a)
  {
    if s != [] {
      if IsSpace(s[0]) && d == 0 {
        ArgumentsAreTokens(s[1..], d, []);
      } else {
        ReachConcat(current, [s[0]], 0, false);
        ArgumentsAreTokens(s[1..], Step(d, s[0]), current + [s[0]]);
      }
    }
  }

  /**
   Every text, printed from a tree or not, is cut into pieces in order: what is kept is unchanged,
   the result is the concatenation of what the pieces become, whatever is handed to `process_tag`
   is balanced, and every argument split from it is a token.
  */
  lemma ResolvesPieceByPiece(open: string, uuid5: Uuid5, text: string)
    requires Opening(open)
    ensures Source(open, Cut(open, text, 0)) == text
    ensures Resolve(open, uuid5, text, 0, []) == Output(open, uuid5, Cut(open, text, 0))
    ensures ContentsBalanced(Cut(open, text, 0))
  {
    CutSource(open, text, 0);
    CutOutput(open, uuid5, text, 0, []);
    CutBalanced(open, text, 0);
  }

  // ---------------------------------------------------------------------------------------------
  // Printed trees
  // ---------------------------------------------------------------------------------------------

  /** The pieces a tree prints: one for each of its top-level tags. */
  function TreePieces(open: string, t: Text): Pieces {
    match t
    case Plain(text) => Last(text)
    case Tagged(before, _, _, _, _, _, after) => Replaced(before, Content(open, t), TreePieces(open, after))
    case Invalid(before, content, after) => Replaced(before, content, TreePieces(open, after))
  }

  /** The scan of a printed tree finds exactly its top-level tags. */
  lemma {:induction false} CutPrinted(open: string, t: Text, inArgument: bool, text: string, i: nat)
    requires Opening(open) && WellFormed(open, t, inArgument)
    requires i <= |text| && text[i..] == Print(open, t)
    ensures Cut(open, text, i) == TreePieces(open, t)
    decreases t
  {
    hide Scan, Close, OpensAt, Reach, Split;
    if t.Plain? {
      ScanPlain(open, text, i);
    } else {
      if t.Tagged? {
        PrintedArgument(open, t.ns);
        PrintedArgument(open, t.name);
        BalancedContent(open, t);
      }
      var content := if t.Tagged? then Content(open, t) else t.content;
      TagAt(open, text, i, t.before, content, Print(open, t.after));
      ScanTag(open, text, i, t.before, content, Print(open, t.after));
      var ps, next := Cut(open, text, i), i + |t.before| + |open| + |content| + 1;
      assert ps.Replaced? && ps.kept == t.before && ps.content == content && ps.rest == Cut(open, text, next);
      CutPrinted(open, t.after, inArgument, text, next);
    }
  }

  lemma {:induction false} TreeOutput(open: string, uuid5: Uuid5, t: Text, inArgument: bool)
    requires Opening(open) && WellFormed(open, t, inArgument)
    ensures Output(open, uuid5, TreePieces(open, t)) == Value(uuid5, t)
    decreases t, 0
  {
    if !t.Plain? {
      TreeOutput(open, uuid5, t.after, inArgument);
      if t.Tagged? {
        PrintedArgument(open, t.ns);
        PrintedArgument(open, t.name);
        SplitContent(open, t);
        ArgumentValue(open, uuid5, t.ns);
        ArgumentValue(open, uuid5, t.name);
        assert Evaluate(open, uuid5, Content(open, t), [Print(open, t.ns), Print(open, t.name)])
            == Answer(uuid5, Value(uuid5, t.ns), Value(uuid5, t.name));
      } else {
        SplitShorter(t.content, 0, []);
        assert Evaluate(open, uuid5, t.content, Split(t.content, 0, [])) == "<invalid-v5 " + t.content + ">";
      }
    }
  }

  lemma {:induction false} ArgumentValue(open: string, uuid5: Uuid5, t: Text)
    requires Opening(open) && WellFormed(open, t, true)
    ensures Resolve(open, uuid5, Print(open, t), 0, []) == Value(uuid5, t)
    decreases t, 1
  {
    CutPrinted(open, t, true, Print(open, t), 0);
    CutOutput(open, uuid5, Print(open, t), 0, []);
    TreeOutput(open, uuid5, t, true);
  }

  /** Resolving a printed text gives its value. */
  lemma ResolvesPrintedText(open: string, uuid5: Uuid5, t: Text)
    requires Opening(open) && WellFormed(open, t, false)
    ensures Resolve(open, uuid5, Print(open, t), 0, []) == Value(uuid5, t)
  {
    CutPrinted(open, t, false, Print(open, t), 0);
    CutOutput(open, uuid5, Print(open, t), 0, []);
    TreeOutput(open, uuid5, t, false);
  }

  /** In particular with the opening of the plugin. */
  lemma ResolvesPrintedTags(uuid5: Uuid5, t: Text)
    requires WellFormed(OPEN, t, false)
    ensures Opening(OPEN) && Resolve(OPEN, uuid5, Print(OPEN, t), 0, []) == Value(uuid5, t)
  {
    OpenIsOpening();
    ResolvesPrintedText(OPEN, uuid5, t);
  }
}
