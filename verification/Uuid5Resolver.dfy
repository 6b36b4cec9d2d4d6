/**
 The tag resolver of the UUIDv5 Argo CD plugin: it replaces every `<spx-uuidv5 ns name>` tag of a
 text, innermost first, by the UUIDv5 of its two arguments.

 `uuid.UUID` and `uuid.uuid5` (section 5.5 of RFC 9562) are a parameter `uuid5`: it answers `None`
 where Python raises.
*/
module Uuid5Resolver {
  import opened Wrappers

  type Uuid5 = (string, string) -> Option<string>

  const OPEN: string := "<spx-uuidv5 "

  /** Python's `str.isspace` on one character. */
  predicate IsSpace(c: char) {
    var n := c as int;
    || 0x09 <= n <= 0x0D || 0x1C <= n <= 0x20 || n == 0x85 || n == 0xA0 || n == 0x1680
    || 0x2000 <= n <= 0x200A || n == 0x2028 || n == 0x2029 || n == 0x202F || n == 0x205F || n == 0x3000
  }

  // ---------------------------------------------------------------------------------------------
  // What the code computes, on values
  // ---------------------------------------------------------------------------------------------

  /** The bracket depth after one more character. */
  function Step(depth: int, c: char): int {
    if c == '<' then depth + 1 else if c == '>' then depth - 1 else depth
  }

  function Flush(current: string): seq<string> {
    if current == [] then [] else [current]
  }

  /** The arguments that `s` adds, given the depth and the argument being read. */
  function Split(s: string, depth: int, current: string): seq<string> {
    if s == [] then Flush(current)
    else if IsSpace(s[0]) && depth == 0 then Flush(current) + Split(s[1..], depth, [])
    else Split(s[1..], Step(depth, s[0]), current + [s[0]])
  }

  lemma SplitShorter(s: string, depth: int, current: string)
    ensures forall a :: a in Split(s, depth, current) ==> 0 < |a| <= |current| + |s|
  {
  }

  /** The shape of `OPEN` that the scan relies on: one bracket, at its start. */
  predicate Opening(open: string) {
    && open != [] && open[0] == '<'
    && forall j :: 0 < j < |open| ==> open[j] != '<' && open[j] != '>'
  }

  lemma OpenIsOpening()
    ensures Opening(OPEN)
  {
  }

  predicate OpensAt(open: string, text: string, i: nat) {
    i + |open| <= |text| && forall j :: 0 <= j < |open| ==> text[i + j] == open[j]
  }

  /** The first `>` of `text` from `i` on that brings `depth` to 0; `|text|` when there is none. */
  function Close(text: string, i: nat, depth: int): (e: nat)
    requires i <= |text|
    ensures i <= e <= |text| && (e < |text| ==> text[e] == '>')
    decreases |text| - i
  {
    if i == |text| || (text[i] == '>' && depth == 1) then i else Close(text, i + 1, Step(depth, text[i]))
  }

  /** A tag cannot close inside its own opening. */
  lemma ClosePastOpen(open: string, text: string, start: nat)
    requires Opening(open) && OpensAt(open, text, start)
    ensures start + |open| <= Close(text, start, 0)
  {
    assert forall i :: start <= i < start + |open| ==> text[i] == open[i - start] != '>';
  }

  /** What the rest of a text starts with: no tag, a closed tag, or an opening that is never closed. */
  datatype Start = NoTag | Closed(start: nat, end: nat) | Unclosed(start: nat)

  function Scan(open: string, text: string, i: nat): (r: Start)
    requires Opening(open) && i <= |text|
    ensures r.Closed? ==> i <= r.start && r.start + |open| <= r.end < |text|
    ensures r.Unclosed? ==> i <= r.start < |text|
    decreases |text| - i
  {
    if i == |text| then NoTag
    else if OpensAt(open, text, i) then
      ClosePastOpen(open, text, i);
      if Close(text, i, 0) < |text| then Closed(i, Close(text, i, 0)) else Unclosed(i)
    else Scan(open, text, i + 1)
  }

  /** `done` followed by the text from `i` on with its tags replaced. */
  function Resolve(open: string, uuid5: Uuid5, text: string, i: nat, done: string): string
    requires Opening(open) && i <= |text|
    decreases |text| - i, 1
  {
    match Scan(open, text, i)
    case NoTag => done + text[i..]
    case Closed(start, end) =>
      Resolve(open, uuid5, text, end + 1, done + text[i..start] + Process(open, uuid5, text[start + |open|..end]))
    case Unclosed(start) =>
      Resolve(open, uuid5, text, start + 1, done + text[i..start] + [text[start]])
  }

  /** What a tag with the given content becomes. */
  function Process(open: string, uuid5: Uuid5, content: string): string
    requires Opening(open)
    decreases |content|, 3
  {
    SplitShorter(content, 0, []);
    Evaluate(open, uuid5, content, Split(content, 0, []))
  }

  function Evaluate(open: string, uuid5: Uuid5, content: string, args: seq<string>): string
    requires Opening(open)
    requires forall a :: a in args ==> |a| <= |content|
    decreases |content|, 2
  {
    if |args| != 2 then "<invalid-v5 " + content + ">" else
    assert args[0] in args && args[1] in args;
    var ns := Resolve(open, uuid5, args[0], 0, []);
    match uuid5(ns, Resolve(open, uuid5, args[1], 0, []))
    case Some(id) => id
    case None => "<error-" + ns + ">"
  }

  // ---------------------------------------------------------------------------------------------
  // The loops of the program
  // ---------------------------------------------------------------------------------------------

  lemma Assoc<T>(a: seq<T>, b: seq<T>, c: seq<T>)
    ensures a + (b + c) == (a + b) + c
  {
  }

  lemma Regroup<T>(a: seq<T>, b: seq<T>, c: seq<T>, d: seq<T>)
    ensures a + (b + c + d) == (a + b + c) + d
  {
  }

  method ParseArgs(s: string) returns (args: seq<string>)
    ensures args == Split(s, 0, [])
  {
    assert !IsSpace('<') && !IsSpace('>');
    hide IsSpace;
    args := [];
    var current: string := [];
    var depth, i := 0, 0;
    while i < |s|
      invariant 0 <= i <= |s|
      invariant args + Split(s[i..], depth, current) == Split(s, 0, [])
    {
      var c := s[i];
      assert s[i..][1..] == s[i + 1..];
      if c == '<' {
        depth := depth + 1;
        current := current + [c];
      } else if c == '>' {
        depth := depth - 1;
        current := current + [c];
      } else if IsSpace(c) && depth == 0 {
        Assoc(args, Flush(current), Split(s[i + 1..], 0, []));
        if current != [] {
          args := args + [current];
          current := [];
        }
      } else {
        current := current + [c];
      }
      i := i + 1;
    }
    if current != [] {
      args := args + [current];
    }
  }

  /** `text.find(open, i)`, with `|text|` for -1. */
  method Find(open: string, text: string, i: nat) returns (k: nat)
    requires Opening(open) && i <= |text|
    ensures i <= k <= |text| && (k < |text| ==> OpensAt(open, text, k))
    ensures Scan(open, text, k) == Scan(open, text, i)
  {
    k := i;
    while k < |text| && !OpensAt(open, text, k)
      invariant i <= k <= |text|
      invariant Scan(open, text, k) == Scan(open, text, i)
    {
      k := k + 1;
    }
  }

  /** The inner loop: the index of the `>` matching the `<` at `start`; -1 when there is none. */
  method FindClose(text: string, start: nat) returns (end: int)
    requires start <= |text|
    ensures end == if Close(text, start, 0) < |text| then Close(text, start, 0) else -1
  {
    var depth := 0;
    for j := start to |text|
      invariant Close(text, start, 0) == Close(text, j, depth)
    {
      if text[j] == '<' {
        depth := depth + 1;
      } else if text[j] == '>' {
        depth := depth - 1;
        if depth == 0 { return j; }
      }
    }
    return -1;
  }

  /** The next tag: where it starts and, unless `end` is -1, where it ends. */
  method NextTag(open: string, text: string, i: nat) returns (start: nat, end: int)
    requires Opening(open) && i <= |text|
    ensures i <= start <= |text| && (start == |text| || end == -1 || start + |open| <= end < |text|)
    ensures Scan(open, text, i) ==
      if start == |text| then NoTag else if end < 0 then Unclosed(start) else Closed(start, end)
  {
    start := Find(open, text, i);
    end := -1;
    if start < |text| {
      end := FindClose(text, start);
      ClosePastOpen(open, text, start);
    }
  }

  method ResolveText(open: string, uuid5: Uuid5, text: string) returns (result: string)
    requires Opening(open)
    ensures result == Resolve(open, uuid5, text, 0, [])
    decreases |text|, 1
  {
    hide Scan, Process, Opening;
    result := [];
    var i := 0;
    ghost var whole := Resolve(open, uuid5, text, 0, []);
    while i < |text|
      invariant 0 <= i <= |text|
      invariant Resolve(open, uuid5, text, i, result) == whole
    {
      var start, end := NextTag(open, text, i);
      var before := result + text[i..start];
      if start == |text| {
        return before;
      }
      if end != -1 {
        var value := ProcessTag(open, uuid5, text[start + |open|..end]);
        result := before + value;
        i := end + 1;
      } else {
        result := before + [text[start]];
        i := start + 1;
      }
    }
  }

  method ProcessTag(open: string, uuid5: Uuid5, content: string) returns (result: string)
    requires Opening(open)
    ensures result == Process(open, uuid5, content)
    decreases |content|, 3
  {
    var args := ParseArgs(content);
    if |args| != 2 {
      return "<invalid-v5 " + content + ">";
    }
    SplitShorter(content, 0, []);
    assert args[0] in args && args[1] in args;
    var ns := ResolveText(open, uuid5, args[0]);
    var name := ResolveText(open, uuid5, args[1]);
    match uuid5(ns, name)
    case Some(id) => result := id;
    case None => result := "<error-" + ns + ">";
  }
}
