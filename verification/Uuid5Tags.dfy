/** Single tags, character by character: what separates arguments, and what one tag becomes. */
module Uuid5Tags {
  import opened Wrappers
  import opened Uuid5Resolver
  import opened Uuid5RoundTrip

  /** The characters that separate arguments. */
  const WHITESPACE: set<char> := {
    '\t', '\n', '\U{B}', '\U{C}', '\r', '\U{1C}', '\U{1D}', '\U{1E}', '\U{1F}', ' ', '\U{85}', '\U{A0}', '\U{1680}',
    '\U{2000}', '\U{2001}', '\U{2002}', '\U{2003}', '\U{2004}', '\U{2005}', '\U{2006}', '\U{2007}', '\U{2008}',
    '\U{2009}', '\U{200A}', '\U{2028}', '\U{2029}', '\U{202F}', '\U{205F}', '\U{3000}'
  }

  /** They are the ones that separate, and no visible ASCII character does. */
  lemma SpacesAre(c: char)
    ensures IsSpace(c) <==> c in WHITESPACE
    ensures '!' <= c <= '~' ==> !IsSpace(c)
  {
    var n := c as int;
    if 0x2000 <= n <= 0x200A {
      assert c in ['\U{2000}', '\U{2001}', '\U{2002}', '\U{2003}', '\U{2004}', '\U{2005}', '\U{2006}', '\U{2007}',
                   '\U{2008}', '\U{2009}', '\U{200A}'];
    }
  }

  /** An argument without tags: no bracket, and nothing that separates. */
  predicate Word(w: string) {
    w != "" && forall i :: 0 <= i < |w| ==> w[i] !in WHITESPACE && w[i] != '<' && w[i] != '>'
  }

  predicate Blank(w: string) { forall i :: 0 <= i < |w| ==> w[i] in WHITESPACE }

  /** Words with the same gap between them. */
  function Line(words: seq<string>, gap: string): string {
    if words == [] then "" else if |words| == 1 then words[0] else words[0] + gap + Line(words[1..], gap)
  }

  lemma BlankIsSpaces(w: string)
    requires Blank(w)
    ensures Spaces(w)
  {
    forall i | 0 <= i < |w| ensures IsSpace(w[i]) { SpacesAre(w[i]); }
  }

  lemma {:induction false} WordReach(w: string, spaces: bool)
    requires forall i :: 0 <= i < |w| ==> w[i] !in WHITESPACE && w[i] != '<' && w[i] != '>'
    ensures Reach(w, 0, spaces) == 0
  {
    if w != "" {
      SpacesAre(w[0]);
      WordReach(w[1..], spaces);
    }
  }

  lemma {:induction false} BlankReach(w: string)
    requires Blank(w)
    ensures Reach(w, 0, true) == 0
  {
    if w != "" {
      assert w[0] != '<' && w[0] != '>';
      BlankReach(w[1..]);
    }
  }

  /** A line of words splits into them. */
  lemma {:induction false} SplitLine(words: seq<string>, gap: string, trail: string)
    requires (forall w :: w in words ==> Word(w)) && Blank(gap) && gap != "" && Blank(trail)
    ensures Split(Line(words, gap) + trail, 0, []) == words
    ensures Reach(Line(words, gap), 0, true) == 0
  {
    hide IsSpace;
    BlankIsSpaces(gap);
    BlankIsSpaces(trail);
    if words == [] {
      assert Line(words, gap) + trail == trail;
      SplitBlank(trail, "");
    } else {
      var w, rest := words[0], Line(words[1..], gap);
      assert w in words;
      WordReach(w, false);
      WordReach(w, true);
      if |words| == 1 {
        SplitConcat(w, trail, 0, []);
        assert [] + w == w;
        SplitBlank(trail, w);
        assert words == [w];
      } else {
        SplitLine(words[1..], gap, trail);
        assert Line(words, gap) + trail == w + (gap + (rest + trail));
        SplitConcat(w, gap + (rest + trail), 0, []);
        assert [] + w == w;
        SplitSpaces(gap, rest + trail, w);
        assert Flush(w) + words[1..] == words;
        BlankReach(gap);
        ReachConcat(w, gap, 0, true);
        ReachConcat(w + gap, rest, 0, true);
      }
    }
  }

  lemma SplitBlank(w: string, current: string)
    requires Spaces(w)
    ensures Split(w, 0, current) == Flush(current)
  {
    if w != "" {
      SplitSpaces(w, "", current);
      assert w + "" == w;
    }
  }

  /** A text without an opening bracket holds no tag. */
  lemma NoOpening(open: string, s: string)
    requires Opening(open) && forall i :: 0 <= i < |s| ==> s[i] != '<'
    ensures Literal(open, s, false)
  {
    forall k | 0 <= k < |s| ensures !OpensAt(open, s, k) { assert s[k] != open[0]; }
  }

  lemma WordIsArgument(open: string, w: string)
    requires Opening(open) && Word(w)
    ensures WellFormed(open, Plain(w), true)
  {
    NoOpening(open, w);
    WordReach(w, false);
  }

  /** The content of a tag, with blanks around its words. */
  lemma LineContent(lead: string, words: seq<string>, gap: string, trail: string)
    requires (forall w :: w in words ==> Word(w)) && Blank(lead) && Blank(gap) && gap != "" && Blank(trail)
    ensures var content := lead + Line(words, gap) + trail; Split(content, 0, []) == words && Balanced(content)
  {
    hide IsSpace;
    var line := Line(words, gap);
    BlankIsSpaces(lead);
    SplitLine(words, gap, trail);
    assert lead + line + trail == lead + (line + trail);
    if lead == "" {
      assert lead + (line + trail) == line + trail;
    } else {
      SplitSpaces(lead, line + trail, "");
    }
    BlankReach(lead);
    BlankReach(trail);
    ReachConcat(lead, line, 0, true);
    ReachConcat(lead + line, trail, 0, true);
  }

  /** A tag with two arguments, between texts without tags. */
  lemma TagOfTwo(open: string, uuid5: Uuid5, before: string, lead: string, ns: string, gap: string, name: string,
                 trail: string, after: string)
    requires Opening(open) && Literal(open, before, false) && Literal(open, after, false)
    requires Word(ns) && Word(name) && Blank(lead) && Blank(gap) && gap != "" && Blank(trail)
    ensures Resolve(open, uuid5, before + Tag(open, lead + ns + gap + name + trail, after), 0, "") ==
      before + Answer(uuid5, ns, name) + after
  {
    hide Answer, IsSpace, Resolve, Opening, Literal;
    BlankIsSpaces(lead);
    BlankIsSpaces(gap);
    BlankIsSpaces(trail);
    WordIsArgument(open, ns);
    WordIsArgument(open, name);
    ResolvesPrintedText(open, uuid5, Tagged(before, lead, Plain(ns), gap, Plain(name), trail, Plain(after)));
  }

  lemma TagOfOthers(open: string, uuid5: Uuid5, before: string, content: string, after: string)
    requires Opening(open) && Literal(open, before, false) && Literal(open, after, false)
    requires Balanced(content) && |Split(content, 0, [])| != 2
    ensures Resolve(open, uuid5, before + Tag(open, content, after), 0, "") ==
      before + ("<invalid-v5 " + content + ">") + after
  {
    hide IsSpace, Resolve, Opening, Balanced;
    ResolvesPrintedText(open, uuid5, Invalid(before, content, Plain(after)));
  }

  /** What a tag with arguments that hold no tag becomes. */
  function WordsValue(uuid5: Uuid5, words: seq<string>, content: string): string {
    if |words| != 2 then "<invalid-v5 " + content + ">"
    else if uuid5(words[0], words[1]).Some? then uuid5(words[0], words[1]).value
    else "<error-" + words[0] + ">"
  }

  lemma LineOfTwo(words: seq<string>, gap: string)
    requires |words| == 2
    ensures Line(words, gap) == words[0] + gap + words[1]
  {
    assert words[1..][0] == words[1];
  }

  lemma TagOfWords(open: string, uuid5: Uuid5, before: string, lead: string, words: seq<string>, gap: string,
                   trail: string, after: string)
    requires Opening(open) && Literal(open, before, false) && Literal(open, after, false)
    requires (forall w :: w in words ==> Word(w)) && Blank(lead) && Blank(gap) && gap != "" && Blank(trail)
    ensures var content := lead + Line(words, gap) + trail;
      Resolve(open, uuid5, before + Tag(open, content, after), 0, "") ==
        before + WordsValue(uuid5, words, content) + after
  {
    hide Opening, Resolve, Literal, Balanced, IsSpace, Tag;
    var content := lead + Line(words, gap) + trail;
    if |words| == 2 {
      assert words[0] in words && words[1] in words;
      LineOfTwo(words, gap);
      assert lead + (words[0] + gap + words[1]) + trail == lead + words[0] + gap + words[1] + trail;
      TagOfTwo(open, uuid5, before, lead, words[0], gap, words[1], trail, after);
    } else {
      LineContent(lead, words, gap, trail);
      TagOfOthers(open, uuid5, before, content, after);
    }
  }

  /**
   A tag whose arguments hold no tag becomes the UUIDv5 of its two arguments, or an error with its namespace;
   with any other number of arguments, an invalid tag with its content. What stands around it stays.
  */
  lemma SingleTag(uuid5: Uuid5, before: string, lead: string, words: seq<string>, gap: string, trail: string,
                  after: string)
    requires (forall i :: 0 <= i < |before| ==> before[i] != '<') && (forall i :: 0 <= i < |after| ==> after[i] != '<')
    requires (forall w :: w in words ==> Word(w)) && Blank(lead) && Blank(gap) && gap != "" && Blank(trail)
    ensures OPEN == "<spx-uuidv5 " && Opening(OPEN)
    ensures var content := lead + Line(words, gap) + trail;
      Resolve(OPEN, uuid5, before + ("<spx-uuidv5 " + content + ['>'] + after), 0, "") ==
        before + WordsValue(uuid5, words, content) + after
  {
    OpenIsOpening();
    NoOpening(OPEN, before);
    NoOpening(OPEN, after);
    hide Opening, Resolve, Literal, IsSpace, WordsValue, Line;
    TagOfWords(OPEN, uuid5, before, lead, words, gap, trail, after);
  }

  lemma OnlyTag(open: string, content: string)
    ensures "" + Tag(open, content, "") == open + content + ['>']
  {
  }

  lemma OnlyWords(ns: string, gap: string, name: string)
    ensures "" + ns + gap + name + "" == ns + gap + name
  {
    assert "" + ns == ns;
  }

  lemma TwoWords(open: string, uuid5: Uuid5, ns: string, gap: string, name: string)
    requires Opening(open) && Word(ns) && Word(name) && Blank(gap) && gap != ""
    ensures Resolve(open, uuid5, open + (ns + gap + name) + ['>'], 0, "") == Answer(uuid5, ns, name)
  {
    NoOpening(open, "");
    hide Opening, Resolve, Literal, IsSpace, Tag, Answer, Word;
    TagOfTwo(open, uuid5, "", "", ns, gap, name, "", "");
    OnlyWords(ns, gap, name);
    OnlyTag(open, ns + gap + name);
    assert "" + Answer(uuid5, ns, name) + "" == Answer(uuid5, ns, name);
  }

  /** A namespace and a name with one space, tab or line break between them. */
  lemma TwoArguments(uuid5: Uuid5, ns: string, gap: char, name: string)
    requires Word(ns) && Word(name) && gap in {' ', '\t', '\n'}
    ensures Opening(OPEN) && Resolve(OPEN, uuid5, "<spx-uuidv5 " + (ns + [gap] + name) + ['>'], 0, "") ==
      if uuid5(ns, name).Some? then uuid5(ns, name).value else "<error-" + ns + ">"
  {
    OpenIsOpening();
    hide Resolve, Opening, Word;
    TwoWords(OPEN, uuid5, ns, [gap], name);
  }

  lemma {:induction false} NeverCloses(text: string, i: nat, depth: int)
    requires i <= |text| && forall k :: 0 <= k < |text| ==> text[k] != '>'
    ensures Close(text, i, depth) == |text|
    decreases |text| - i
  {
    if i < |text| { NeverCloses(text, i + 1, Step(depth, text[i])); }
  }

  lemma {:induction false} NothingCloses(open: string, text: string, i: nat)
    requires Opening(open) && i <= |text| && forall k :: 0 <= k < |text| ==> text[k] != '>'
    ensures !Scan(open, text, i).Closed?
    decreases |text| - i
  {
    if i < |text| {
      NeverCloses(text, i, 0);
      if !OpensAt(open, text, i) { NothingCloses(open, text, i + 1); }
    }
  }

  /** Openings that are never closed stay as they are. */
  lemma {:induction false} UnclosedStays(open: string, uuid5: Uuid5, text: string, i: nat, done: string)
    requires Opening(open) && i <= |text| && forall k :: 0 <= k < |text| ==> text[k] != '>'
    ensures Resolve(open, uuid5, text, i, done) == done + text[i..]
    decreases |text| - i
  {
    NothingCloses(open, text, i);
    if Scan(open, text, i).Unclosed? {
      var start := Scan(open, text, i).start;
      UnclosedStays(open, uuid5, text, start + 1, done + text[i..start] + [text[start]]);
      assert text[i..] == text[i..start] + [text[start]] + text[start + 1..];
    }
  }
}
