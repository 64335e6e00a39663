/**
 * The Mermaid block pattern of the report viewer (pages/3_View_Report.py),
 * ```` ```mermaid\n(.*?)``` ```` with DOTALL: a block is an opening
 * delimiter, a body of any characters including newlines, and the FIRST
 * closing delimiter after it. `re.findall` and `re.sub` share one
 * left-to-right scan for non-overlapping matches; it is modelled once over
 * a pair of delimiters and instantiated with the Mermaid pair.
 */
module MermaidBlocks {
  import opened Wrappers
  import opened Text

  /** An opening and a closing delimiter; the body between them is the captured group. */
  datatype Delimiters = Delimiters(open: string, close: string)

  /** Both delimiters are non-empty, as the Mermaid fences are. */
  predicate ValidDelimiters(d: Delimiters) {
    |d.open| > 0 && |d.close| > 0
  }

  /** The pattern ```` ```mermaid\n(.*?)``` ````. */
  const MermaidPattern: Delimiters := Delimiters("```mermaid\n", "```")

  lemma MermaidPatternValid()
    ensures ValidDelimiters(MermaidPattern)
    ensures MermaidPattern.open[0] == '`'
    ensures MermaidPattern.close[..|MermaidPattern.close| - 1] == "``"
  {
  }

  /**
   * Where the closing delimiter next starts at or after `from`: the lazy
   * `.*?` stops at the first one (see `FindCloseIsFirst`).
   */
  function FindClose(s: string, close: string, from: nat): (r: Option<nat>)
    decreases |s| - from
    ensures r.Some? ==> from <= r.value && r.value + |close| <= |s|
  {
    if from + |close| > |s| then None
    else if OccursAt(s, close, from) then Some(from)
    else FindClose(s, close, from + 1)
  }

  /**
   * The search finds the first closing: it starts at the position returned
   * and at no position between `from` and there; `None` means none starts
   * anywhere from `from` on.
   */
  lemma {:induction false} FindCloseIsFirst(s: string, close: string, from: nat)
    ensures FindClose(s, close, from).Some? ==>
              OccursAt(s, close, FindClose(s, close, from).value)
              && forall k :: from <= k < FindClose(s, close, from).value ==> !OccursAt(s, close, k)
    ensures FindClose(s, close, from).None? ==> forall k :: from <= k ==> !OccursAt(s, close, k)
    decreases |s| - from
  {
    if from + |close| <= |s| && !OccursAt(s, close, from) {
      FindCloseIsFirst(s, close, from + 1);
    }
  }

  /** Conversely, the first closing at or after `from` is the one the search returns. */
  lemma {:induction false} FindCloseFinds(s: string, close: string, from: nat, j: nat)
    requires from <= j && OccursAt(s, close, j)
    requires forall k :: from <= k < j ==> !OccursAt(s, close, k)
    ensures FindClose(s, close, from) == Some(j)
    decreases j - from
  {
    if from < j {
      FindCloseFinds(s, close, from + 1, j);
    }
  }

  /**
   * The pattern matches at the front of `t` when a block opens there and is
   * closed later; the result is where the closing starts.
   */
  function MatchFront(t: string, d: Delimiters): (r: Option<nat>)
    ensures r.Some? ==> |d.open| <= r.value && r.value + |d.close| <= |t|
  {
    if OccursAt(t, d.open, 0) then FindClose(t, d.close, |d.open|) else None
  }

  /** What the scan sees at each step: a character the pattern skips, or a whole block. */
  datatype Piece = Kept(c: char) | Block(body: string)

  /**
   * The left-to-right scan: either a block matches at the front and the
   * scan resumes after its closing, or the first character is kept and the
   * scan moves on by one.
   */
  function Scan(t: string, d: Delimiters): seq<Piece>
    requires ValidDelimiters(d)
    decreases |t|
  {
    if |t| == 0 then []
    else match MatchFront(t, d)
      case Some(j) => [Block(t[|d.open|..j])] + Scan(t[j + |d.close|..], d)
      case None => [Kept(t[0])] + Scan(t[1..], d)
  }

  /** The text a piece stands for. */
  function PieceText(p: Piece, d: Delimiters): string {
    match p
    case Kept(c) => [c]
    case Block(body) => d.open + body + d.close
  }

  /** The pieces put back together. */
  function Render(ps: seq<Piece>, d: Delimiters): string {
    if |ps| == 0 then "" else PieceText(ps[0], d) + Render(ps[1..], d)
  }

  /** The block bodies, in order. */
  function Bodies(ps: seq<Piece>): seq<string> {
    if |ps| == 0 then []
    else (if ps[0].Block? then [ps[0].body] else []) + Bodies(ps[1..])
  }

  /** The kept characters, in order. */
  function KeptText(ps: seq<Piece>): string {
    if |ps| == 0 then ""
    else (if ps[0].Kept? then [ps[0].c] else "") + KeptText(ps[1..])
  }

  /** `re.findall(pattern, report, re.DOTALL)` */
  function Findall(s: string): seq<string> {
    MermaidPatternValid();
    Bodies(Scan(s, MermaidPattern))
  }

  /** `re.sub(pattern, '', report, flags=re.DOTALL)` */
  function Sub(s: string): string {
    MermaidPatternValid();
    KeptText(Scan(s, MermaidPattern))
  }

  // ------------------------------------------------------------ scan steps

  /** A scan step at a match: the block, then the scan after its closing. */
  lemma ScanBlockStep(t: string, d: Delimiters, j: nat)
    requires ValidDelimiters(d) && MatchFront(t, d) == Some(j)
    ensures Scan(t, d) == [Block(t[|d.open|..j])] + Scan(t[j + |d.close|..], d)
  {
  }

  /** A scan step without a match: the character, then the scan of the rest. */
  lemma ScanKeptStep(t: string, d: Delimiters)
    requires ValidDelimiters(d) && |t| > 0 && MatchFront(t, d).None?
    ensures Scan(t, d) == [Kept(t[0])] + Scan(t[1..], d)
  {
  }

  /** A match spans the opening, the body and the closing. */
  lemma MatchSpan(t: string, d: Delimiters, j: nat)
    requires MatchFront(t, d) == Some(j)
    ensures t == d.open + t[|d.open|..j] + d.close + t[j + |d.close|..]
  {
    FindCloseIsFirst(t, d.close, |d.open|);
    assert t[..|d.open|] == d.open;
    assert t[j..j + |d.close|] == d.close;
    assert t == t[..|d.open|] + t[|d.open|..j] + t[j..j + |d.close|] + t[j + |d.close|..];
  }

  lemma RenderCons(p: Piece, ps: seq<Piece>, d: Delimiters)
    ensures Render([p] + ps, d) == PieceText(p, d) + Render(ps, d)
  {
    assert ([p] + ps)[1..] == ps;
  }

  lemma {:induction false} BodiesAppend(a: seq<Piece>, b: seq<Piece>)
    ensures Bodies(a + b) == Bodies(a) + Bodies(b)
  {
    if |a| > 0 {
      assert (a + b)[0] == a[0];
      assert (a + b)[1..] == a[1..] + b;
      BodiesAppend(a[1..], b);
      var head := if a[0].Block? then [a[0].body] else [];
      assert Bodies(a + b) == head + Bodies(a[1..] + b);
      assert Bodies(a) == head + Bodies(a[1..]);
    } else {
      assert a + b == b;
    }
  }

  lemma {:induction false} KeptTextAppend(a: seq<Piece>, b: seq<Piece>)
    ensures KeptText(a + b) == KeptText(a) + KeptText(b)
  {
    if |a| > 0 {
      assert (a + b)[0] == a[0];
      assert (a + b)[1..] == a[1..] + b;
      KeptTextAppend(a[1..], b);
      var head := if a[0].Kept? then [a[0].c] else "";
      assert KeptText(a + b) == head + KeptText(a[1..] + b);
      assert KeptText(a) == head + KeptText(a[1..]);
    } else {
      assert a + b == b;
    }
  }

  // ------------------------------------------------ the scan loses nothing

  /** The pieces render back to the scanned text. */
  lemma {:induction false} ScanRenders(t: string, d: Delimiters)
    requires ValidDelimiters(d)
    ensures Render(Scan(t, d), d) == t
    decreases |t|
  {
    if |t| > 0 {
      var m := MatchFront(t, d);
      if m.Some? {
        var j := m.value;
        var body, after := t[|d.open|..j], t[j + |d.close|..];
        var rest := Scan(after, d);
        assert Render(rest, d) == after by {
          ScanRenders(after, d);
        }
        assert Scan(t, d) == [Block(body)] + rest by {
          ScanBlockStep(t, d, j);
        }
        assert t == d.open + body + d.close + after by {
          MatchSpan(t, d, j);
        }
        RenderCons(Block(body), rest, d);
      } else {
        var rest := Scan(t[1..], d);
        assert Render(rest, d) == t[1..] by {
          ScanRenders(t[1..], d);
        }
        assert Scan(t, d) == [Kept(t[0])] + rest by {
          ScanKeptStep(t, d);
        }
        RenderCons(Kept(t[0]), rest, d);
        assert t == [t[0]] + t[1..];
      }
    }
  }

  /**
   * The report is its kept characters and its blocks in their original
   * order: matches are taken left to right and never overlap.
   */
  lemma ReportIsItsPieces(s: string)
    ensures Render(Scan(s, MermaidPattern), MermaidPattern) == s
  {
    MermaidPatternValid();
    ScanRenders(s, MermaidPattern);
  }

  // ------------------------------------------ bodies stop at the first close

  /** A stretch in which no non-empty `p` starts contains no `p`. */
  lemma AbsentFromStretch(s: string, p: string, from: nat, j: nat)
    requires from <= j <= |s| && |p| > 0
    requires forall k :: from <= k < j ==> !OccursAt(s, p, k)
    ensures !Occurs(s[from..j], p)
  {
    var t := s[from..j];
    if Occurs(t, p) {
      var k: nat :| k <= |t| && OccursAt(t, p, k);
      SliceOfSlice(s, from, j, k, k + |p|);
      assert OccursAt(s, p, from + k);
    }
  }

  /** The body of a match holds no closing: the match stops at the first one. */
  lemma BodyCloseFree(t: string, d: Delimiters, j: nat)
    requires ValidDelimiters(d) && MatchFront(t, d) == Some(j)
    ensures !Occurs(t[|d.open|..j], d.close)
  {
    FindCloseIsFirst(t, d.close, |d.open|);
    AbsentFromStretch(t, d.close, |d.open|, j);
  }

  /** Every body the scan extracts stops at the first closing, so no body holds one. */
  lemma {:induction false} ScanBodiesCloseFree(t: string, d: Delimiters)
    requires ValidDelimiters(d)
    ensures forall b :: b in Bodies(Scan(t, d)) ==> !Occurs(b, d.close)
    decreases |t|
  {
    if |t| > 0 {
      var m := MatchFront(t, d);
      if m.Some? {
        var j := m.value;
        var after := t[j + |d.close|..];
        ScanBodiesCloseFree(after, d);
        BodyCloseFree(t, d, j);
        ScanBlockStep(t, d, j);
        BodiesAppend([Block(t[|d.open|..j])], Scan(after, d));
      } else {
        ScanBodiesCloseFree(t[1..], d);
        ScanKeptStep(t, d);
        BodiesAppend([Kept(t[0])], Scan(t[1..], d));
      }
    }
  }

  /** No extracted diagram contains the closing fence ```` ``` ````. */
  lemma DiagramsCloseFree(s: string)
    ensures forall b :: b in Findall(s) ==> !Occurs(b, MermaidPattern.close)
  {
    MermaidPatternValid();
    ScanBodiesCloseFree(s, MermaidPattern);
  }

  // ---------------------------------------------- nothing found, nothing cut

  /** Without a block the kept text is the rendered text. */
  lemma {:induction false} NoBlockKeepsAll(ps: seq<Piece>, d: Delimiters)
    requires Bodies(ps) == []
    ensures KeptText(ps) == Render(ps, d)
  {
    if |ps| > 0 {
      assert ps[0].Kept?;
      assert Bodies(ps[1..]) == [];
      NoBlockKeepsAll(ps[1..], d);
    }
  }

  /** Cutting blocks shortens the text by at least one character per block. */
  lemma {:induction false} KeptNoLonger(ps: seq<Piece>, d: Delimiters)
    requires ValidDelimiters(d)
    ensures |KeptText(ps)| + |Bodies(ps)| <= |Render(ps, d)|
  {
    if |ps| > 0 {
      KeptNoLonger(ps[1..], d);
      assert |PieceText(ps[0], d)| >= 1;
    }
  }

  /**
   * `findall` finds nothing exactly when `sub` leaves the report as it
   * was: a report without a complete block is shown unchanged.
   */
  lemma NoDiagramsIffUnchanged(s: string)
    ensures Findall(s) == [] <==> Sub(s) == s
  {
    MermaidPatternValid();
    var ps := Scan(s, MermaidPattern);
    ReportIsItsPieces(s);
    if Bodies(ps) == [] {
      NoBlockKeepsAll(ps, MermaidPattern);
    } else {
      KeptNoLonger(ps, MermaidPattern);
    }
  }

  /** Whatever occurs in the text after its first character occurs in the text. */
  lemma OccursInTail(t: string, p: string)
    requires |t| > 0 && Occurs(t[1..], p)
    ensures Occurs(t, p)
  {
    var k: nat :| k <= |t[1..]| && OccursAt(t[1..], p, k);
    SliceOfSlice(t, 1, |t|, k, k + |p|);
    assert OccursAt(t, p, k + 1);
  }

  /** Where the opening never occurs, the scan finds no block. */
  lemma {:induction false} NoOpeningNoBlocks(t: string, d: Delimiters)
    requires ValidDelimiters(d) && !Occurs(t, d.open)
    ensures Bodies(Scan(t, d)) == []
    decreases |t|
  {
    if |t| > 0 {
      assert !OccursAt(t, d.open, 0);
      if Occurs(t[1..], d.open) {
        OccursInTail(t, d.open);
      }
      NoOpeningNoBlocks(t[1..], d);
      ScanKeptStep(t, d);
      BodiesAppend([Kept(t[0])], Scan(t[1..], d));
    }
  }

  /** A report in which no block opens is shown unchanged and yields no diagram. */
  lemma ReportWithoutBlocks(s: string)
    requires !Occurs(s, MermaidPattern.open)
    ensures Findall(s) == [] && Sub(s) == s
  {
    MermaidPatternValid();
    NoOpeningNoBlocks(s, MermaidPattern);
    NoDiagramsIffUnchanged(s);
  }

  // ------------------------------------------- scanning a composed report

  /** The pieces of text that is only kept: one per character. */
  function KeptPieces(t: string): seq<Piece>
  {
    seq(|t|, k requires 0 <= k < |t| => Kept(t[k]))
  }

  /** Text that never holds the opening's first character is kept character by character. */
  lemma {:induction false} PlainPrefix(t: string, r: string, d: Delimiters)
    requires ValidDelimiters(d) && d.open[0] !in t
    ensures Scan(t + r, d) == KeptPieces(t) + Scan(r, d)
    decreases |t|
  {
    var s := t + r;
    if |t| > 0 {
      assert s[0] == t[0];
      assert !OccursAt(s, d.open, 0);
      ScanKeptStep(s, d);
      assert s[1..] == t[1..] + r;
      PlainPrefix(t[1..], r, d);
      assert KeptPieces(t) == [Kept(t[0])] + KeptPieces(t[1..]);
    } else {
      assert s == r;
    }
  }

  /** Kept pieces hold their characters and no body. */
  lemma {:induction false} KeptPiecesText(t: string)
    ensures Bodies(KeptPieces(t)) == []
    ensures KeptText(KeptPieces(t)) == t
  {
    if |t| > 0 {
      assert KeptPieces(t)[1..] == KeptPieces(t[1..]);
      KeptPiecesText(t[1..]);
      assert t == [t[0]] + t[1..];
    }
  }

  /** No closing starts inside a body that, run into all but the last character of the closing, holds none. */
  lemma NoCloseInBody(s: string, o: nat, b: string, d: Delimiters)
    requires ValidDelimiters(d) && o + |b| + |d.close| <= |s|
    requires s[o..o + |b| + |d.close| - 1] == b + d.close[..|d.close| - 1]
    requires !Occurs(b + d.close[..|d.close| - 1], d.close)
    ensures forall k :: o <= k < o + |b| ==> !OccursAt(s, d.close, k)
  {
    var c, w := |d.close|, b + d.close[..|d.close| - 1];
    forall k | o <= k < o + |b|
      ensures !OccursAt(s, d.close, k)
    {
      if OccursAt(s, d.close, k) {
        SliceOfSlice(s, o, o + |b| + c - 1, k - o, k - o + c);
        assert OccursAt(w, d.close, k - o);
      }
    }
  }

  /** A complete block at the front matches, closing right after its body. */
  lemma BlockMatchesFront(b: string, r: string, d: Delimiters)
    requires ValidDelimiters(d)
    requires !Occurs(b + d.close[..|d.close| - 1], d.close)
    ensures MatchFront(d.open + b + d.close + r, d) == Some(|d.open| + |b|)
  {
    var s := d.open + b + d.close + r;
    var o, c := |d.open|, |d.close|;
    var j := o + |b|;
    assert OccursAt(s, d.open, 0) by {
      assert s[..o] == d.open;
    }
    assert OccursAt(s, d.close, j) by {
      assert s[j..j + c] == d.close;
    }
    assert s[o..j + c - 1] == b + d.close[..c - 1];
    NoCloseInBody(s, o, b, d);
    FindCloseFinds(s, d.close, o, j);
  }

  /**
   * A complete block at the front is matched whole, provided no closing
   * starts inside its body or where the body runs into the closing.
   */
  lemma BlockPrefix(b: string, r: string, d: Delimiters)
    requires ValidDelimiters(d)
    requires !Occurs(b + d.close[..|d.close| - 1], d.close)
    ensures Scan(d.open + b + d.close + r, d) == [Block(b)] + Scan(r, d)
  {
    var s := d.open + b + d.close + r;
    var j := |d.open| + |b|;
    BlockMatchesFront(b, r, d);
    ScanBlockStep(s, d, j);
    assert s[|d.open|..j] == b;
    assert s[j + |d.close|..] == r;
  }

  /** Text without a backtick in front of a report is shown as it is and adds no diagram. */
  lemma PlainTextThenReport(t: string, r: string)
    requires '`' !in t
    ensures Findall(t + r) == Findall(r)
    ensures Sub(t + r) == t + Sub(r)
  {
    MermaidPatternValid();
    PlainPrefix(t, r, MermaidPattern);
    KeptPiecesText(t);
    BodiesAppend(KeptPieces(t), Scan(r, MermaidPattern));
    KeptTextAppend(KeptPieces(t), Scan(r, MermaidPattern));
  }

  /**
   * A Mermaid block in front of a report is extracted first and removed
   * from the text, when no fence starts inside the body or where it runs
   * into the closing fence.
   */
  lemma DiagramThenReport(b: string, r: string)
    requires !Occurs(b + "``", "```")
    ensures Findall("```mermaid\n" + b + "```" + r) == [b] + Findall(r)
    ensures Sub("```mermaid\n" + b + "```" + r) == Sub(r)
  {
    var d := MermaidPattern;
    MermaidPatternValid();
    BlockPrefix(b, r, d);
    BodiesAppend([Block(b)], Scan(r, d));
    KeptTextAppend([Block(b)], Scan(r, d));
  }
}
