/** Splitting a bundle of certificates into PEM blocks (sections 2 and 5 of RFC 7468). */
module PemBlocks {

  const BEGIN: string := "-----BEGIN CERTIFICATE-----"
  const END: string := "-----END CERTIFICATE-----"

  type Line = string

  // ----- Text and lines

  /** `text.replace("\r", "")` */
  function DropReturns(text: string): (r: string)
    ensures '\r' !in r
  {
    if text == [] then []
    else if text[0] == '\r' then DropReturns(text[1..])
    else [text[0]] + DropReturns(text[1..])
  }

  /** `text.split("\n")` */
  function Lines(text: string): (ls: seq<Line>)
    ensures ls != [] && forall i :: 0 <= i < |ls| ==> '\n' !in ls[i]
  {
    if text == [] then [[]]
    else
      var rest := Lines(text[1..]);
      if text[0] == '\n' then [[]] + rest else [[text[0]] + rest[0]] + rest[1..]
  }

  /** `"\n".join(lines)` */
  function Join(ls: seq<Line>): string {
    if ls == [] then [] else if |ls| == 1 then ls[0] else ls[0] + "\n" + Join(ls[1..])
  }

  /** A line as the splitter sees one. */
  predicate PlainLine(l: Line) {
    '\n' !in l && '\r' !in l
  }

  predicate PlainLines(ls: seq<Line>) {
    forall i :: 0 <= i < |ls| ==> PlainLine(ls[i])
  }

  // ----- The splitter

  /** One block: from a BEGIN line to the first END line after it. */
  predicate Block(b: seq<Line>) {
    && |b| >= 2 && b[0] == "-----BEGIN CERTIFICATE-----" && b[|b| - 1] == "-----END CERTIFICATE-----"
    && "-----END CERTIFICATE-----" !in b[1..|b| - 1]
  }

  /** The blocks that the remaining lines yield, given the lines of the block being read
      (none when outside a block). */
  function Scan(ls: seq<Line>, open: seq<Line>): seq<seq<Line>> {
    if ls == [] then []
    else if open != [] then
      if ls[0] == END then [open + [END]] + Scan(ls[1..], []) else Scan(ls[1..], open + [ls[0]])
    else
      Scan(ls[1..], if ls[0] == BEGIN then [BEGIN] else [])
  }

  function JoinAll(blocks: seq<seq<Line>>): (r: seq<string>)
    ensures |r| == |blocks| && forall i :: 0 <= i < |blocks| ==> r[i] == Join(blocks[i])
  {
    seq(|blocks|, i requires 0 <= i < |blocks| => Join(blocks[i]))
  }

  /** What `_split_x509s` yields for a text. */
  function Split(text: string): seq<string> {
    JoinAll(Scan(Lines(DropReturns(text)), []))
  }

  lemma JoinAllCons(b: seq<Line>, blocks: seq<seq<Line>>, before: seq<string>)
    ensures before + JoinAll([b] + blocks) == before + [Join(b)] + JoinAll(blocks)
  {
  }

  method SplitX509s(text: string) returns (yielded: seq<string>)
    ensures yielded == Split(text)
  {
    yielded := [];
    var current: seq<Line> := [];
    var inside := false;
    var lines := Lines(DropReturns(text));
    for k := 0 to |lines|
      invariant inside <==> current != []
      invariant Split(text) == yielded + JoinAll(Scan(lines[k..], current))
    {
      var line := lines[k];
      assert lines[k..][1..] == lines[k + 1..];
      if inside {
        current := current + [line];
        if line == END {
          JoinAllCons(current, Scan(lines[k + 1..], []), yielded);
          yielded := yielded + [Join(current)];
          current := [];
          inside := false;
        }
      } else if line == BEGIN {
        current := current + [line];
        assert current == [BEGIN];
        inside := true;
      }
    }
  }

  // ----- Splitting and joining lines are inverse

  lemma {:induction false} LinesOfPrefix(l: Line, text: string)
    requires '\n' !in l
    ensures Lines(l + text) == [l + Lines(text)[0]] + Lines(text)[1..]
  {
    if l == [] {
      assert l + text == text && l + Lines(text)[0] == Lines(text)[0];
    } else {
      LinesOfPrefix(l[1..], text);
      assert (l + text)[1..] == l[1..] + text;
      assert [l[0]] + (l[1..] + Lines(text)[0]) == l + Lines(text)[0];
    }
  }

  lemma {:induction false} LinesOfJoin(ls: seq<Line>)
    requires ls != [] && forall i :: 0 <= i < |ls| ==> '\n' !in ls[i]
    ensures Lines(Join(ls)) == ls
  {
    if |ls| == 1 {
      assert ls[0] + [] == ls[0];
      LinesOfPrefix(ls[0], []);
    } else {
      LinesOfJoin(ls[1..]);
      var rest := "\n" + Join(ls[1..]);
      assert rest[1..] == Join(ls[1..]);
      assert Lines(rest) == [[]] + ls[1..];
      assert Join(ls) == ls[0] + rest;
      LinesOfPrefix(ls[0], rest);
      assert ls[0] + Lines(rest)[0] == ls[0];
    }
  }

  lemma {:induction false} KeepsPlain(text: string)
    requires '\r' !in text
    ensures DropReturns(text) == text
  {
    if text != [] {
      KeepsPlain(text[1..]);
    }
  }

  lemma {:induction false} DropsAppend(a: string, b: string)
    ensures DropReturns(a + b) == DropReturns(a) + DropReturns(b)
  {
    if a == [] {
      assert a + b == b;
    } else {
      DropsAppend(a[1..], b);
      assert (a + b)[1..] == a[1..] + b && (a + b)[0] == a[0];
      var rest := DropReturns(a[1..]);
      assert [a[0]] + (rest + DropReturns(b)) == [a[0]] + rest + DropReturns(b);
    }
  }

  /** Every carriage return goes, and every other character stays in its place. */
  lemma ReturnsGo(a: string, c: char, b: string)
    ensures DropReturns(a + [c] + b) == DropReturns(a) + (if c == '\r' then [] else [c]) + DropReturns(b)
  {
    DropsAppend(a + [c], b);
    DropsAppend(a, [c]);
  }

  /** The lines of a text in which some lines end with a carriage return before the newline. */
  function JoinWithReturns(ls: seq<Line>, crs: seq<bool>): string
    requires |crs| == |ls|
  {
    if ls == [] then []
    else
      var l := if crs[0] then ls[0] + "\r" else ls[0];
      if |ls| == 1 then l else l + "\n" + JoinWithReturns(ls[1..], crs[1..])
  }

  lemma DropsLine(l: Line, cr: bool, rest: string)
    requires '\r' !in l
    ensures DropReturns((if cr then l + "\r" else l) + rest) == l + DropReturns(rest)
  {
    KeepsPlain(l);
    DropsAppend(l, "\r");
    DropsAppend(if cr then l + "\r" else l, rest);
  }

  lemma {:induction false} ReturnsBeforeNewlines(ls: seq<Line>, crs: seq<bool>)
    requires |crs| == |ls| && PlainLines(ls)
    ensures DropReturns(JoinWithReturns(ls, crs)) == Join(ls)
  {
    if ls != [] {
      var l := if crs[0] then ls[0] + "\r" else ls[0];
      if |ls| == 1 {
        assert l + [] == l;
        DropsLine(ls[0], crs[0], []);
      } else {
        ReturnsBeforeNewlines(ls[1..], crs[1..]);
        var rest := JoinWithReturns(ls[1..], crs[1..]);
        assert l + "\n" + rest == l + ("\n" + rest);
        DropsLine(ls[0], crs[0], "\n" + rest);
        DropsAppend("\n", rest);
      }
    }
  }

  /** A bundle yields the same blocks whichever of its lines end with a carriage return. */
  lemma ReturnsDoNotMatter(ls: seq<Line>, crs: seq<bool>)
    requires |crs| == |ls| && PlainLines(ls)
    ensures Split(JoinWithReturns(ls, crs)) == Split(Join(ls))
  {
    ReturnsBeforeNewlines(ls, crs);
    JoinHasNoReturns(ls);
    KeepsPlain(Join(ls));
  }

  lemma {:induction false} JoinHasNoReturns(ls: seq<Line>)
    requires PlainLines(ls)
    ensures '\r' !in Join(ls)
  {
    if |ls| > 1 {
      JoinHasNoReturns(ls[1..]);
    }
  }

  lemma {:induction false} LinesHaveNoReturns(text: string)
    requires '\r' !in text
    ensures PlainLines(Lines(text))
  {
    if text != [] {
      LinesHaveNoReturns(text[1..]);
    }
  }

  /** The split of a text written as lines. */
  lemma SplitOfLines(ls: seq<Line>)
    requires ls != [] && PlainLines(ls)
    ensures Split(Join(ls)) == JoinAll(Scan(ls, []))
  {
    JoinHasNoReturns(ls);
    KeepsPlain(Join(ls));
    LinesOfJoin(ls);
  }

  // ----- What is yielded

  function Flatten(blocks: seq<seq<Line>>): seq<Line> {
    if blocks == [] then [] else blocks[0] + Flatten(blocks[1..])
  }

  /** Inside a block, everything up to the first END is kept. */
  lemma {:induction false} ScanInside(body: seq<Line>, rest: seq<Line>, open: seq<Line>)
    requires open != [] && END !in body
    ensures Scan(body + [END] + rest, open) == [open + body + [END]] + Scan(rest, [])
    ensures Scan(body, open) == []
  {
    if body == [] {
      assert body + [END] + rest == [END] + rest && open + body + [END] == open + [END];
    } else {
      ScanInside(body[1..], rest, open + [body[0]]);
      assert (body + [END] + rest)[1..] == body[1..] + [END] + rest;
      assert open + [body[0]] + body[1..] + [END] == open + body + [END];
    }
  }

  lemma {:induction false} ScanOutside(noise: seq<Line>, rest: seq<Line>)
    requires BEGIN !in noise
    ensures Scan(noise + rest, []) == Scan(rest, [])
  {
    if noise == [] {
      assert noise + rest == rest;
    } else {
      ScanOutside(noise[1..], rest);
      assert (noise + rest)[1..] == noise[1..] + rest;
    }
  }

  lemma ScanBlock(b: seq<Line>, rest: seq<Line>)
    requires Block(b)
    ensures Scan(b + rest, []) == [b] + Scan(rest, [])
  {
    var body := b[1..|b| - 1];
    assert b == [BEGIN] + body + [END];
    assert (b + rest)[1..] == body + [END] + rest;
    ScanInside(body, rest, [BEGIN]);
  }

  /** Lines that are not BEGIN markers, each followed by a block, with such lines at the end. */
  function Bundle(noise: seq<seq<Line>>, blocks: seq<seq<Line>>): seq<Line>
    requires |noise| == |blocks| + 1
  {
    if blocks == [] then noise[0] else noise[0] + blocks[0] + Bundle(noise[1..], blocks[1..])
  }

  lemma {:induction false} ScanBundle(noise: seq<seq<Line>>, blocks: seq<seq<Line>>, tail: seq<Line>)
    requires |noise| == |blocks| + 1
    requires forall i :: 0 <= i < |blocks| ==> Block(blocks[i])
    requires forall i :: 0 <= i < |noise| ==> BEGIN !in noise[i]
    ensures Scan(Bundle(noise, blocks) + tail, []) == blocks + Scan(tail, [])
  {
    if blocks == [] {
      ScanOutside(noise[0], tail);
    } else {
      var rest := Bundle(noise[1..], blocks[1..]) + tail;
      assert Bundle(noise, blocks) + tail == noise[0] + (blocks[0] + rest);
      ScanOutside(noise[0], blocks[0] + rest);
      ScanBlock(blocks[0], rest);
      ScanBundle(noise[1..], blocks[1..], tail);
      assert blocks == [blocks[0]] + blocks[1..];
    }
  }

  /** The outputs for a bundle are exactly its blocks, in order; a last block without an END
      line yields nothing. */
  lemma BundleYieldsItsBlocks(noise: seq<seq<Line>>, blocks: seq<seq<Line>>, unfinished: seq<Line>)
    requires |noise| == |blocks| + 1
    requires forall i :: 0 <= i < |blocks| ==> Block(blocks[i])
    requires forall i :: 0 <= i < |noise| ==> BEGIN !in noise[i]
    requires unfinished == [] || (unfinished[0] == BEGIN && END !in unfinished)
    requires Bundle(noise, blocks) + unfinished != [] && PlainLines(Bundle(noise, blocks) + unfinished)
    ensures Split(Join(Bundle(noise, blocks) + unfinished)) == JoinAll(blocks)
  {
    SplitOfLines(Bundle(noise, blocks) + unfinished);
    ScanBundle(noise, blocks, unfinished);
    if unfinished != [] {
      ScanInside(unfinished[1..], [], [BEGIN]);
    }
    assert blocks + [] == blocks;
  }

  /** Every output is a block of lines that occur in the text. */
  lemma {:induction false} ScanYieldsBlocks(ls: seq<Line>, open: seq<Line>)
    requires open == [] || (open[0] == BEGIN && END !in open[1..])
    ensures forall i :: 0 <= i < |Scan(ls, open)| ==>
              Block(Scan(ls, open)[i]) && (PlainLines(open) && PlainLines(ls) ==> PlainLines(Scan(ls, open)[i]))
  {
    if ls != [] {
      if open != [] && ls[0] == END {
        var b := open + [END];
        assert b[1..|b| - 1] == open[1..];
        ScanYieldsBlocks(ls[1..], []);
      } else if open != [] {
        assert (open + [ls[0]])[1..] == open[1..] + [ls[0]];
        ScanYieldsBlocks(ls[1..], open + [ls[0]]);
      } else {
        ScanYieldsBlocks(ls[1..], if ls[0] == BEGIN then [BEGIN] else []);
      }
    }
  }

  lemma {:induction false} ScanFlatten(blocks: seq<seq<Line>>)
    requires forall i :: 0 <= i < |blocks| ==> Block(blocks[i])
    ensures Scan(Flatten(blocks), []) == blocks
  {
    if blocks != [] {
      ScanBlock(blocks[0], Flatten(blocks[1..]));
      ScanFlatten(blocks[1..]);
    }
  }

  lemma {:induction false} JoinAppend(a: seq<Line>, b: seq<Line>)
    requires a != [] && b != []
    ensures Join(a + b) == Join(a) + "\n" + Join(b)
  {
    if |a| > 1 {
      JoinAppend(a[1..], b);
      assert (a + b)[1..] == a[1..] + b;
    } else {
      assert (a + b)[1..] == b;
    }
  }

  lemma {:induction false} JoinOfJoins(blocks: seq<seq<Line>>)
    requires blocks != [] && forall i :: 0 <= i < |blocks| ==> blocks[i] != []
    ensures Flatten(blocks) != [] && Join(JoinAll(blocks)) == Join(Flatten(blocks))
  {
    if |blocks| == 1 {
      assert Flatten(blocks) == blocks[0];
    } else {
      JoinOfJoins(blocks[1..]);
      JoinAppend(blocks[0], Flatten(blocks[1..]));
      assert JoinAll(blocks)[1..] == JoinAll(blocks[1..]);
    }
  }

  lemma {:induction false} FlattenPlain(blocks: seq<seq<Line>>)
    requires forall i :: 0 <= i < |blocks| ==> PlainLines(blocks[i])
    ensures PlainLines(Flatten(blocks))
  {
    if blocks != [] {
      FlattenPlain(blocks[1..]);
    }
  }

  /** Joining the outputs with newlines, as the TLS chain is built, and splitting again gives
      the same outputs, whatever the text was. */
  lemma SplitJoinRoundTrip(text: string)
    ensures Split(Join(Split(text))) == Split(text)
  {
    var ls := Lines(DropReturns(text));
    var blocks := Scan(ls, []);
    LinesHaveNoReturns(DropReturns(text));
    ScanYieldsBlocks(ls, []);
    if blocks == [] {
      assert Lines([]) == [[]];
    } else {
      JoinOfJoins(blocks);
      FlattenPlain(blocks);
      SplitOfLines(Flatten(blocks));
      ScanFlatten(blocks);
    }
  }
}
