/**
 * `functions.map(fn => `...${fn}...`).join('\n')`: the shape shared by every method-stub emitter,
 * with a parser that reads the emitted text back into the list of names.
 */
module Stubs {
  import opened Wrappers

  /** `Array.prototype.join(sep)` */
  function Join(parts: seq<string>, sep: string): string
    decreases |parts|
  {
    if |parts| == 0 then ""
    else if |parts| == 1 then parts[0]
    else parts[0] + sep + Join(parts[1..], sep)
  }

  /** A template literal with one hole for the method name; the text after the hole opens the parameter list. */
  datatype Template = Template(head: string, tail: string)

  predicate WellFormed(t: Template) { |t.tail| > 0 && t.tail[0] == '(' }

  /** A name that can stand in the hole without being confused with the parameter list */
  predicate PlainName(name: string) { '(' !in name }

  predicate PlainNames(names: seq<string>) {
    forall i :: 0 <= i < |names| ==> PlainName(names[i])
  }

  function Fill(t: Template, name: string): string { t.head + name + t.tail }

  /** `names.map(fill).join('\n')` */
  function Emit(t: Template, names: seq<string>): string
  {
    Join(seq(|names|, i requires 0 <= i < |names| => Fill(t, names[i])), "\n")
  }

  /** Index of the first `c` in `s`, or `|s|` when there is none */
  function IndexOf(s: string, c: char): (r: nat)
    ensures r <= |s|
    ensures forall k :: 0 <= k < r ==> s[k] != c
    ensures r < |s| ==> s[r] == c
    decreases |s|
  {
    if s == [] then 0 else if s[0] == c then 0 else 1 + IndexOf(s[1..], c)
  }

  /** Reads one stub block: the name in its hole and the text after the block. */
  function ReadBlock(t: Template, s: string): (r: Option<(string, string)>)
    requires WellFormed(t)
    ensures r.Some? ==> |r.value.1| < |s|
  {
    if !(t.head <= s) then None
    else
      var rest := s[|t.head|..];
      var k := IndexOf(rest, '(');
      if !(t.tail <= rest[k..]) then None
      else Some((rest[..k], rest[k + |t.tail|..]))
  }

  /** Reads one or more stub blocks separated by line feeds, returning their names in order. */
  function ParseBlocks(t: Template, s: string): Option<seq<string>>
    requires WellFormed(t)
    decreases |s|
  {
    match ReadBlock(t, s)
    case None => None
    case Some((name, more)) =>
      if more == [] then Some([name])
      else if more[0] != '\n' then None
      else match ParseBlocks(t, more[1..])
        case None => None
        case Some(names) => Some([name] + names)
  }

  /** Reads the output of `Emit` back: the empty text stands for no stubs at all. */
  function Parse(t: Template, s: string): Option<seq<string>>
    requires WellFormed(t)
  {
    if s == [] then Some([]) else ParseBlocks(t, s)
  }

  lemma IndexOfPlain(name: string, tail: string)
    requires '(' !in name && |tail| > 0 && tail[0] == '('
    ensures IndexOf(name + tail, '(') == |name|
    decreases |name|
  {
    if name != [] {
      assert (name + tail)[1..] == name[1..] + tail;
      IndexOfPlain(name[1..], tail);
    }
  }

  lemma SplitAt(x: string, y: string)
    ensures (x + y)[..|x|] == x && (x + y)[|x|..] == y
  {
  }

  /** The parser finds the name of a filled block, and the text after it. */
  lemma ReadFill(t: Template, name: string, after: string)
    requires WellFormed(t) && PlainName(name)
    ensures ReadBlock(t, Fill(t, name) + after) == Some((name, after))
  {
    var s := Fill(t, name) + after;
    var rest, more := name + (t.tail + after), t.tail + after;
    assert s == t.head + rest;
    SplitAt(t.head, rest);
    IndexOfPlain(name, more);
    SplitAt(name, more);
    SplitAt(t.tail, after);
    assert rest[|name| + |t.tail|..] == more[|t.tail|..];
  }

  /** A single block parses to its name. */
  lemma ParseFillLast(t: Template, name: string)
    requires WellFormed(t) && PlainName(name)
    ensures ParseBlocks(t, Fill(t, name)) == Some([name])
  {
    ReadFill(t, name, "");
    assert Fill(t, name) + "" == Fill(t, name);
  }

  /** Emitting stubs and parsing them back gives the names, in their order. */
  lemma {:induction false} ParseEmit(t: Template, names: seq<string>)
    requires WellFormed(t)
    requires PlainNames(names)
    ensures Parse(t, Emit(t, names)) == Some(names)
    decreases |names|
  {
    if |names| == 1 {
      ParseSingle(t, names);
    } else if |names| > 1 {
      ParseEmit(t, names[1..]);
      EmitCons(t, names);
      EmitNonEmpty(t, names[1..]);
      ParseCons(t, names[0], Emit(t, names[1..]), names[1..]);
      assert [names[0]] + names[1..] == names;
    }
  }

  lemma ParseSingle(t: Template, names: seq<string>)
    requires WellFormed(t) && |names| == 1 && PlainName(names[0])
    ensures Parse(t, Emit(t, names)) == Some(names)
  {
    var block := Fill(t, names[0]);
    ParseFillLast(t, names[0]);
    assert Emit(t, names) == block;
    assert block != [];
    assert Parse(t, block) == ParseBlocks(t, block);
    assert [names[0]] == names;
  }

  lemma ParseCons(t: Template, name: string, e: string, names: seq<string>)
    requires WellFormed(t) && PlainName(name)
    requires e != [] && ParseBlocks(t, e) == Some(names)
    ensures ParseBlocks(t, Fill(t, name) + "\n" + e) == Some([name] + names)
  {
    var after := "\n" + e;
    assert Fill(t, name) + "\n" + e == Fill(t, name) + after;
    ReadFill(t, name, after);
    assert after[0] == '\n' && after[1..] == e;
  }

  /** What an emitter promises: empty exactly for no names, opening with the first block, parsing back. */
  lemma EmitMeaning(t: Template, names: seq<string>)
    requires WellFormed(t)
    ensures Emit(t, names) == "" <==> names == []
    ensures |names| > 0 ==> Fill(t, names[0]) <= Emit(t, names)
    ensures |names| == 1 ==> Emit(t, names) == Fill(t, names[0])
    ensures PlainNames(names) ==> Parse(t, Emit(t, names)) == Some(names)
  {
    if |names| == 1 {
      assert seq(|names|, i requires 0 <= i < |names| => Fill(t, names[i]))[0] == Fill(t, names[0]);
    }
    if |names| > 0 {
      EmitNonEmpty(t, names);
    }
    if PlainNames(names) {
      ParseEmit(t, names);
    }
  }

  /** The emitted text is the first block, a line feed, and the rest. */
  lemma EmitCons(t: Template, names: seq<string>)
    requires |names| > 1
    ensures Emit(t, names) == Fill(t, names[0]) + "\n" + Emit(t, names[1..])
  {
    var blocks := seq(|names|, i requires 0 <= i < |names| => Fill(t, names[i]));
    assert blocks[1..] == seq(|names| - 1, i requires 0 <= i < |names| - 1 => Fill(t, names[1..][i]));
  }

  /** The emitted text opens with the first name's block, so it is empty exactly when there are no names. */
  lemma EmitNonEmpty(t: Template, names: seq<string>)
    requires WellFormed(t) && |names| > 0
    ensures Fill(t, names[0]) <= Emit(t, names)
    ensures |Emit(t, names)| > 0
  {
    if |names| > 1 {
      EmitCons(t, names);
    }
  }

  /** One block per name, in order: emitting a concatenation concatenates the emitted texts. */
  lemma {:induction false} EmitAppend(t: Template, a: seq<string>, b: seq<string>)
    requires |a| > 0 && |b| > 0
    ensures Emit(t, a + b) == Emit(t, a) + "\n" + Emit(t, b)
    decreases |a|
  {
    if |a| == 1 {
      assert (a + b)[1..] == b;
      EmitCons(t, a + b);
      assert a[0] == (a + b)[0];
    } else {
      EmitCons(t, a + b);
      EmitCons(t, a);
      assert (a + b)[1..] == a[1..] + b;
      EmitAppend(t, a[1..], b);
    }
  }
}
