/** The first pass of the spreadsheet importer over an OpenDocument `content.xml`:
    it strips the namespace prefixes from the raw text, finds the table named
    BENJY, and counts the logical columns of each of its rows, a cell that
    repeats over several columns counting for each of them. */
module OdsScan {
  import opened Outcomes
  import opened Strings

  // ------------------------------------------------- namespace prefixes

  /** The prefixes the importer removes, in the order of the alternation. */
  const NamespacePrefixes: seq<string> := ["table:", "office:", "style:", "text:", "draw:"]

  /** The prefix that matches at the start of `s`, trying the alternatives in order. */
  function MatchAt(s: string): (r: Option<string>)
    ensures r.Some? ==> 0 < |r.value| <= |s|
  {
    if "table:" <= s then Some("table:")
    else if "office:" <= s then Some("office:")
    else if "style:" <= s then Some("style:")
    else if "text:" <= s then Some("text:")
    else if "draw:" <= s then Some("draw:")
    else None
  }

  /** A match is one of the prefixes and starts `s`; no match means that none of
      them starts `s`. */
  lemma MatchAtSpec(s: string)
    ensures MatchAt(s).Some? ==> MatchAt(s).value in NamespacePrefixes && MatchAt(s).value <= s
    ensures MatchAt(s).None? <==> forall p :: p in NamespacePrefixes ==> !(p <= s)
  {
  }

  /** No prefix is a prefix of another. */
  lemma PrefixFree()
    ensures forall p, q :: p in NamespacePrefixes && q in NamespacePrefixes && p <= q ==> p == q
  {
    assert "office:"[0] == 'o' && "style:"[0] == 's' && "draw:"[0] == 'd';
    assert "table:"[1] == 'a' && "text:"[1] == 'e';
  }

  lemma PrefixesOfOneText(p: string, q: string, s: string)
    requires p <= s && q <= s && |p| <= |q|
    ensures p <= q
  {
    assert q[..|p|] == s[..|p|];
  }

  /** At most one prefix matches at a position, so the order of the alternatives
      does not matter. */
  lemma MatchIsUnique(p: string, s: string)
    requires p in NamespacePrefixes && p <= s
    ensures MatchAt(s) == Some(p)
  {
    MatchAtSpec(s);
    var q := MatchAt(s).value;
    if |p| <= |q| { PrefixesOfOneText(p, q, s); } else { PrefixesOfOneText(q, p, s); }
    PrefixFree();
  }

  /** `re.sub(r'(table|office|style|text|draw):', '', s)`: scanning from the left,
      each match is removed and scanning resumes right after it. */
  function StripNamespaces(s: string): (r: string)
    ensures |r| <= |s|
    decreases |s|
  {
    if s == [] then []
    else match MatchAt(s)
      case Some(p) => StripNamespaces(s[|p|..])
      case None => [s[0]] + StripNamespaces(s[1..])
  }

  /** A prefix occurs somewhere in `s`. */
  predicate HasPrefixOccurrence(s: string) {
    exists i :: 0 <= i < |s| && MatchAt(s[i..]).Some?
  }

  /** Where no prefix matches, the first character is kept and scanning goes on
      after it. */
  lemma StripKeeps(s: string)
    requires s != [] && MatchAt(s).None?
    ensures StripNamespaces(s) == [s[0]] + StripNamespaces(s[1..])
  {
  }

  /** Where a prefix matches, it is removed and scanning resumes right after it. */
  lemma StripDrops(p: string, s: string)
    requires p in NamespacePrefixes && p <= s
    ensures StripNamespaces(s) == StripNamespaces(s[|p|..])
  {
    MatchIsUnique(p, s);
  }

  /** A text in which no prefix occurs is left unchanged. */
  lemma {:induction false} NoOccurrenceUnchanged(s: string)
    requires forall i :: 0 <= i < |s| ==> MatchAt(s[i..]).None?
    ensures StripNamespaces(s) == s
    decreases |s|
  {
    if s != [] {
      assert s[0..] == s;
      StripKeeps(s);
      forall i | 0 <= i < |s[1..]| ensures MatchAt(s[1..][i..]).None? {
        assert s[1..][i..] == s[i + 1..];
      }
      NoOccurrenceUnchanged(s[1..]);
      assert [s[0]] + s[1..] == s;
    }
  }

  /** Where no prefix matches at any of the first `k` positions, those `k` characters
      are kept as they are. */
  lemma {:induction false} KeepUpTo(s: string, k: nat)
    requires k <= |s|
    requires forall i :: 0 <= i < k ==> MatchAt(s[i..]).None?
    ensures StripNamespaces(s) == s[..k] + StripNamespaces(s[k..])
    decreases k
  {
    if k > 0 {
      var rest := s[1..];
      assert s[0..] == s;
      StripKeeps(s);
      forall i | 0 <= i < k - 1 ensures MatchAt(rest[i..]).None? {
        assert rest[i..] == s[i + 1..];
      }
      KeepUpTo(rest, k - 1);
      PeelFirst(s, k, StripNamespaces(s[k..]));
    }
  }

  /** Slicing facts for peeling the first character off `s`, ahead of any text `t`. */
  lemma PeelFirst(s: string, k: nat, t: string)
    requires 0 < k <= |s|
    ensures s[1..][k - 1..] == s[k..]
    ensures [s[0]] + (s[1..][..k - 1] + t) == s[..k] + t
  {
    assert [s[0]] + s[1..][..k - 1] == s[..k];
  }

  /** A text in which a prefix occurs gets strictly shorter. */
  lemma {:induction false} OccurrenceShortens(s: string, i: nat)
    requires i < |s| && MatchAt(s[i..]).Some?
    ensures |StripNamespaces(s)| < |s|
    decreases |s|
  {
    match MatchAt(s)
    case Some(p) =>
      StripDrops(p, s);
    case None =>
      assert i != 0 by { assert s[0..] == s; }
      StripKeeps(s);
      assert s[1..][i - 1..] == s[i..];
      OccurrenceShortens(s[1..], i - 1);
  }

  /** Stripping leaves a text unchanged exactly when no prefix occurs in it; when one
      does, the text gets strictly shorter. */
  lemma StripUnchangedIff(s: string)
    ensures StripNamespaces(s) == s <==> !HasPrefixOccurrence(s)
    ensures HasPrefixOccurrence(s) ==> |StripNamespaces(s)| < |s|
  {
    if HasPrefixOccurrence(s) {
      var i :| 0 <= i < |s| && MatchAt(s[i..]).Some?;
      OccurrenceShortens(s, i);
    } else {
      NoOccurrenceUnchanged(s);
    }
  }

  /** A piece of the input as the substitution sees it: a character it keeps, or a
      prefix it removes. */
  datatype Piece = Kept(c: char) | Dropped(p: string)

  function Flatten(ps: seq<Piece>): string {
    if ps == [] then []
    else (match ps[0] case Kept(c) => [c] case Dropped(p) => p) + Flatten(ps[1..])
  }

  function KeptText(ps: seq<Piece>): string {
    if ps == [] then []
    else (match ps[0] case Kept(c) => [c] case Dropped(_) => []) + KeptText(ps[1..])
  }

  /** A leftmost, non-overlapping reading: every dropped piece is a prefix, and no
      prefix starts at a kept character. */
  predicate Leftmost(ps: seq<Piece>) {
    ps == [] ||
    ((match ps[0]
      case Kept(c) => MatchAt([c] + Flatten(ps[1..])).None?
      case Dropped(p) => p in NamespacePrefixes)
     && Leftmost(ps[1..]))
  }

  /** The reading the substitution makes of `s`. */
  function Decompose(s: string): (ps: seq<Piece>)
    ensures Flatten(ps) == s && Leftmost(ps)
    decreases |s|
  {
    if s == [] then []
    else match MatchAt(s)
      case Some(p) =>
        assert s == p + s[|p|..];
        [Dropped(p)] + Decompose(s[|p|..])
      case None =>
        assert s == [s[0]] + s[1..];
        [Kept(s[0])] + Decompose(s[1..])
  }

  /** The substitution keeps exactly the kept characters of a leftmost reading:
      it removes each non-overlapping left-to-right match and nothing else. */
  lemma {:induction false} StripKeepsLeftmostReading(ps: seq<Piece>)
    requires Leftmost(ps)
    ensures StripNamespaces(Flatten(ps)) == KeptText(ps)
  {
    if ps != [] {
      StripKeepsLeftmostReading(ps[1..]);
      var rest := Flatten(ps[1..]);
      match ps[0]
      case Kept(c) =>
        assert Flatten(ps) == [c] + rest;
        assert ([c] + rest)[1..] == rest;
      case Dropped(p) =>
        assert Flatten(ps) == p + rest;
        MatchIsUnique(p, p + rest);
        assert (p + rest)[|p|..] == rest;
    }
  }

  /** Hence every input has one leftmost reading, and the output is its kept text. */
  lemma StripIsKeptText(s: string)
    ensures StripNamespaces(s) == KeptText(Decompose(s))
  {
    StripKeepsLeftmostReading(Decompose(s));
  }

  lemma Mismatch(p: string, s: string, k: nat)
    requires k < |p| && (k >= |s| || p[k] != s[k])
    ensures !(p <= s)
  {
  }

  /** No prefix matches where the text starts with a letter none of them starts with. */
  lemma NoMatchByFirstChar(s: string)
    requires s != [] && s[0] != 't' && s[0] != 'o' && s[0] != 's' && s[0] != 'd'
    ensures MatchAt(s).None?
  {
    Mismatch("table:", s, 0);
    Mismatch("office:", s, 0);
    Mismatch("style:", s, 0);
    Mismatch("text:", s, 0);
    Mismatch("draw:", s, 0);
  }

  lemma NoMatchAtTt(s: string)
    requires |s| >= 2 && s[0] == 't' && s[1] == 't'
    ensures MatchAt(s).None?
  {
    Mismatch("table:", s, 1);
    Mismatch("office:", s, 0);
    Mismatch("style:", s, 0);
    Mismatch("text:", s, 1);
    Mismatch("draw:", s, 0);
  }

  lemma NoMatchAtO(s: string)
    requires |s| >= 2 && s[0] == 'o' && s[1] != 'f'
    ensures MatchAt(s).None?
  {
    Mismatch("table:", s, 0);
    Mismatch("office:", s, 1);
    Mismatch("style:", s, 0);
    Mismatch("text:", s, 0);
    Mismatch("draw:", s, 0);
  }

  /** A character at which no prefix matches is kept, and scanning goes on after it. */
  lemma KeepChar(c: char, u: string)
    requires MatchAt([c] + u).None?
    ensures StripNamespaces([c] + u) == [c] + StripNamespaces(u)
  {
    StripKeeps([c] + u);
    assert ([c] + u)[1..] == u;
  }

  /** `fo:` is not among the prefixes: it is kept, and scanning goes on after it. */
  lemma FoNotStripped(t: string)
    ensures StripNamespaces("fo:" + t) == "fo:" + StripNamespaces(t)
  {
    var s := "fo:" + t;
    assert s[0] == 'f' && s[1] == 'o' && s[2] == ':';
    forall i | 0 <= i < 3 ensures MatchAt(s[i..]).None? {
      if i == 1 {
        NoMatchAtO(s[1..]);
      } else {
        NoMatchByFirstChar(s[i..]);
      }
    }
    KeepUpTo(s, 3);
    assert s[..3] == "fo:" && s[3..] == t;
  }

  /** A prefix followed by a text in which no prefix occurs leaves just that text. */
  lemma DropThenUnchanged(p: string, t: string)
    requires p in NamespacePrefixes
    requires forall i :: 0 <= i < |t| ==> MatchAt(t[i..]).None?
    ensures StripNamespaces(p + t) == t
  {
    StripDrops(p, p + t);
    assert (p + t)[|p|..] == t;
    NoOccurrenceUnchanged(t);
  }

  /** A prefix formed by a removal is not removed in turn: after `table:` goes, the
      `t` before it and the text after it stay, whatever they spell together. */
  lemma RemovalNotRescanned(t: string)
    requires forall i :: 0 <= i < |t| ==> MatchAt(t[i..]).None?
    ensures StripNamespaces(['t'] + ("table:" + t)) == ['t'] + t
  {
    DropThenUnchanged("table:", t);
    NoMatchAtTt(['t'] + ("table:" + t));
    KeepChar('t', "table:" + t);
  }

  /** The text `able:`, given character by character. */
  predicate IsAble(t: string)
  {
    |t| == 5 && t[0] == 'a' && t[1] == 'b' && t[2] == 'l' && t[3] == 'e' && t[4] == ':'
  }

  lemma AbleSpellsTable(t: string)
    requires IsAble(t)
    ensures ['t'] + t == "table:" && ['t'] + ("table:" + t) == "ttable:able:"
  {
  }

  lemma AbleHasNoPrefix(t: string)
    requires IsAble(t)
    ensures forall i :: 0 <= i < |t| ==> MatchAt(t[i..]).None?
  {
    forall i | 0 <= i < |t| ensures MatchAt(t[i..]).None? {
      assert t[i..][0] == t[i];
      NoMatchByFirstChar(t[i..]);
    }
  }

  lemma TableGone(t: string)
    requires IsAble(t)
    ensures StripNamespaces(['t'] + t) == []
  {
    StripDrops("table:", ['t'] + t);
    assert (['t'] + t)[6..] == [];
  }

  /** One pass only: `ttable:able:` becomes `table:`, which a second pass would
      remove, so stripping is not idempotent. */
  lemma SinglePass(t: string)
    requires IsAble(t)
    ensures StripNamespaces(['t'] + ("table:" + t)) == ['t'] + t
    ensures StripNamespaces(['t'] + t) == []
  {
    AbleHasNoPrefix(t);
    RemovalNotRescanned(t);
    TableGone(t);
  }

  // -------------------------------------------------------- element tree

  /** An element of the parsed document: its tag, its attributes and its children. */
  datatype Element = Element(tag: string, attrs: map<string, string>, children: seq<Element>)

  /** `elem.attrib.get(name, None)`. */
  function Attr(e: Element, name: string): Option<string> {
    if name in e.attrs then Some(e.attrs[name]) else None
  }

  /** The table the importer reads. */
  predicate IsBenjyTable(e: Element) {
    e.tag == "table" && Attr(e, "name") == Some("BENJY")
  }

  /** The elements of a forest in document order (each element before its children). */
  function Preorder(es: seq<Element>): seq<Element>
    decreases es
  {
    if es == [] then [] else [es[0]] + Preorder(es[0].children) + Preorder(es[1..])
  }

  function FirstBenjy(es: seq<Element>): Option<Element> {
    if es == [] then None else if IsBenjyTable(es[0]) then Some(es[0]) else FirstBenjy(es[1..])
  }

  /** The search `root.find(".//table[@name='BENJY']")` makes: the first element
      below `root`, in document order, that is the BENJY table. */
  function FindIn(es: seq<Element>): Option<Element>
    decreases es
  {
    if es == [] then None
    else if IsBenjyTable(es[0]) then Some(es[0])
    else match FindIn(es[0].children)
      case Some(t) => Some(t)
      case None => FindIn(es[1..])
  }

  function FindBenjyTable(root: Element): Option<Element> {
    FindIn(root.children)
  }

  lemma {:induction false} FirstBenjyAppend(a: seq<Element>, b: seq<Element>)
    ensures FirstBenjy(a + b) == if FirstBenjy(a).Some? then FirstBenjy(a) else FirstBenjy(b)
  {
    if a == [] {
      assert a + b == b;
    } else {
      assert (a + b)[0] == a[0];
      assert (a + b)[1..] == a[1..] + b;
      FirstBenjyAppend(a[1..], b);
    }
  }

  /** The search finds the first BENJY table of the document order. */
  lemma {:induction false} FindInIsFirstInPreorder(es: seq<Element>)
    ensures FindIn(es) == FirstBenjy(Preorder(es))
    decreases es
  {
    if es != [] {
      FindInIsFirstInPreorder(es[0].children);
      FindInIsFirstInPreorder(es[1..]);
      FirstBenjyAppend([es[0]] + Preorder(es[0].children), Preorder(es[1..]));
      FirstBenjyAppend([es[0]], Preorder(es[0].children));
    }
  }

  lemma {:induction false} FirstBenjyFound(es: seq<Element>)
    ensures FirstBenjy(es).Some? ==> FirstBenjy(es).value in es && IsBenjyTable(FirstBenjy(es).value)
    ensures FirstBenjy(es).None? <==> forall i :: 0 <= i < |es| ==> !IsBenjyTable(es[i])
  {
    if es != [] {
      FirstBenjyFound(es[1..]);
      if FirstBenjy(es).None? {
        forall i | 0 <= i < |es| ensures !IsBenjyTable(es[i]) {
          if i > 0 { assert es[i] == es[1..][i - 1]; }
        }
      }
    }
  }

  /** The table found is a BENJY table below the root, and none is found exactly
      when there is no such table below the root. */
  lemma FindBenjyTableSpec(root: Element)
    ensures var found := FindBenjyTable(root);
            var below := Preorder(root.children);
            (found.Some? ==> found.value in below && IsBenjyTable(found.value))
            && (found.None? <==> forall i :: 0 <= i < |below| ==> !IsBenjyTable(below[i]))
  {
    FindInIsFirstInPreorder(root.children);
    FirstBenjyFound(Preorder(root.children));
  }

  /** `elem.findall(tag)`: the direct children with that tag, in order. */
  function ChildrenTagged(e: Element, tag: string): seq<Element> {
    FilterTag(e.children, tag)
  }

  function FilterTag(es: seq<Element>, tag: string): (r: seq<Element>)
    ensures forall x :: x in r <==> x in es && x.tag == tag
  {
    if es == [] then [] else (if es[0].tag == tag then [es[0]] else []) + FilterTag(es[1..], tag)
  }

  /** `findall` keeps document order: filtering a concatenation filters each part. */
  lemma {:induction false} FilterTagAppend(a: seq<Element>, b: seq<Element>, tag: string)
    ensures FilterTag(a + b, tag) == FilterTag(a, tag) + FilterTag(b, tag)
  {
    if a == [] {
      assert a + b == b;
    } else {
      assert (a + b)[0] == a[0];
      assert (a + b)[1..] == a[1..] + b;
      FilterTagAppend(a[1..], b, tag);
    }
  }

  /** `findall` keeps every child with the tag as often as it occurs, and no other. */
  lemma {:induction false} FilterTagCount(es: seq<Element>, tag: string, x: Element)
    ensures multiset(FilterTag(es, tag))[x] == if x.tag == tag then multiset(es)[x] else 0
  {
    if es != [] {
      assert es == [es[0]] + es[1..];
      FilterTagCount(es[1..], tag, x);
    }
  }

  // ------------------------------------------------------ column counting

  /** Why the scan stops: the document did not parse, there is no BENJY table
      (`None.findall` fails), or a repeat count is not an integer. */
  datatype ScanError = Unparsable | NoBenjyTable | BadRepeatCount(text: string)

  /** The logical columns one cell stands for: its `number-columns-repeated` when
      present and non-empty, and 1 otherwise. */
  function CellSpan(cell: Element): Result<int, ScanError> {
    match Attr(cell, "number-columns-repeated")
    case None => Ok(1)
    case Some(span) =>
      if span == "" then Ok(1)
      else match ParseInt(span)
        case None => Err(BadRepeatCount(span))
        case Some(n) => Ok(n)
  }

  /** The value of `col` after a row's cells: the spans added up from the left,
      stopping at the first bad repeat count. */
  function RowWidth(cells: seq<Element>): Result<int, ScanError>
    decreases |cells|
  {
    if cells == [] then Ok(0)
    else match RowWidth(cells[..|cells| - 1])
      case Err(e) => Err(e)
      case Ok(w) =>
        match CellSpan(cells[|cells| - 1])
        case Err(e) => Err(e)
        case Ok(n) => Ok(w + n)
  }

  /** The widths of the rows, in document order, stopping at the first failure. */
  function RowWidths(rows: seq<Element>): Result<seq<int>, ScanError>
    decreases |rows|
  {
    if rows == [] then Ok([])
    else match RowWidths(rows[..|rows| - 1])
      case Err(e) => Err(e)
      case Ok(ws) =>
        match RowWidth(ChildrenTagged(rows[|rows| - 1], "table-cell"))
        case Err(e) => Err(e)
        case Ok(w) => Ok(ws + [w])
  }

  function SpanSum(cells: seq<Element>): int
    requires forall i :: 0 <= i < |cells| ==> CellSpan(cells[i]).Ok?
  {
    if cells == [] then 0 else CellSpan(cells[0]).value + SpanSum(cells[1..])
  }

  lemma {:induction false} SpanSumSnoc(cells: seq<Element>)
    requires cells != []
    requires forall i :: 0 <= i < |cells| ==> CellSpan(cells[i]).Ok?
    ensures SpanSum(cells) == SpanSum(cells[..|cells| - 1]) + CellSpan(cells[|cells| - 1]).value
    decreases |cells|
  {
    if |cells| > 1 {
      SpanSumSnoc(cells[1..]);
      assert cells[1..][..|cells[1..]| - 1] == cells[..|cells| - 1][1..];
    }
  }

  /** A row's width is the sum of its cells' spans, and it fails exactly when some
      cell's repeat count is not an integer. */
  lemma {:induction false} RowWidthIsSpanSum(cells: seq<Element>)
    ensures RowWidth(cells).Ok? <==> forall i :: 0 <= i < |cells| ==> CellSpan(cells[i]).Ok?
    ensures RowWidth(cells).Ok? ==> RowWidth(cells).value == SpanSum(cells)
    decreases |cells|
  {
    if cells != [] {
      var init := cells[..|cells| - 1];
      RowWidthIsSpanSum(init);
      assert forall i :: 0 <= i < |init| ==> init[i] == cells[i];
      if forall i :: 0 <= i < |cells| ==> CellSpan(cells[i]).Ok? {
        SpanSumSnoc(cells);
      }
    }
  }

  /** With every repeat count at least 1, a row spans at least as many columns as it
      has cells, and exactly as many when no cell repeats. */
  lemma {:induction false} RowWidthAtLeastCells(cells: seq<Element>)
    requires forall i :: 0 <= i < |cells| ==> CellSpan(cells[i]).Ok? && CellSpan(cells[i]).value >= 1
    ensures RowWidth(cells).Ok? && RowWidth(cells).value >= |cells|
    ensures (forall i :: 0 <= i < |cells| ==> Attr(cells[i], "number-columns-repeated").None?)
            ==> RowWidth(cells) == Ok(|cells|)
    decreases |cells|
  {
    if cells != [] {
      var init := cells[..|cells| - 1];
      assert forall i :: 0 <= i < |init| ==> init[i] == cells[i];
      RowWidthAtLeastCells(init);
    }
  }

  /** `col` restarts for every row: the scan of a table gives one width per row, each
      that row's own width. */
  lemma {:induction false} RowWidthsPerRow(rows: seq<Element>)
    requires RowWidths(rows).Ok?
    ensures |RowWidths(rows).value| == |rows|
    ensures forall i :: 0 <= i < |rows| ==> RowFits(rows[i], RowWidths(rows).value[i])
    decreases |rows|
  {
    if rows != [] {
      var init := rows[..|rows| - 1];
      RowWidthsPerRow(init);
      var ws := RowWidths(rows).value;
      assert ws[..|ws| - 1] == RowWidths(init).value;
      forall i | 0 <= i < |rows| ensures RowFits(rows[i], ws[i]) {
        if i < |init| {
          assert rows[i] == init[i] && ws[i] == RowWidths(init).value[i];
        }
      }
    }
  }

  /** The count of `row` is `w`. */
  predicate RowFits(row: Element, w: int) {
    RowWidth(ChildrenTagged(row, "table-cell")) == Ok(w)
  }

  /** A row whose count stops at a bad repeat count. */
  predicate RowFails(row: Element) {
    RowWidth(ChildrenTagged(row, "table-cell")).Err?
  }

  lemma {:induction false} RowWidthsFail(rows: seq<Element>)
    ensures RowWidths(rows).Err? <==> exists i :: 0 <= i < |rows| && RowFails(rows[i])
    decreases |rows|
  {
    if rows != [] {
      var init := rows[..|rows| - 1];
      var last := rows[|rows| - 1];
      RowWidthsFail(init);
      if RowWidths(init).Err? {
        var i :| 0 <= i < |init| && RowFails(init[i]);
        assert rows[i] == init[i];
      } else if RowFails(last) {
        assert RowWidths(rows).Err?;
      } else {
        forall i | 0 <= i < |rows| ensures !RowFails(rows[i]) {
          if i < |init| { assert rows[i] == init[i]; }
        }
      }
    }
  }

  /** One cell further: the count so far plus the next cell's span. */
  lemma RowWidthStep(cells: seq<Element>, j: nat, col: int)
    requires j < |cells| && RowWidth(cells[..j]) == Ok(col)
    ensures RowWidth(cells[..j + 1]) ==
            match CellSpan(cells[j])
            case Err(e) => Err(e)
            case Ok(n) => Ok(col + n)
  {
    assert cells[..j + 1][..j] == cells[..j];
  }

  /** One row further: the counts so far, extended by the next row's count. */
  lemma RowWidthsStep(rows: seq<Element>, i: nat)
    requires i < |rows|
    ensures RowWidths(rows[..i + 1]) ==
            match RowWidths(rows[..i])
            case Err(e) => Err(e)
            case Ok(ws) =>
              match RowWidth(ChildrenTagged(rows[i], "table-cell"))
              case Err(e) => Err(e)
              case Ok(w) => Ok(ws + [w])
  {
    assert rows[..i + 1][..i] == rows[..i];
  }

  /** The failures of a prefix carry over to the whole. */
  lemma {:induction false} RowWidthErrPersists(cells: seq<Element>, j: nat)
    requires j <= |cells| && RowWidth(cells[..j]).Err?
    ensures RowWidth(cells) == RowWidth(cells[..j])
    decreases |cells| - j
  {
    if j < |cells| {
      assert cells[..j + 1][..j] == cells[..j];
      RowWidthErrPersists(cells, j + 1);
    } else {
      assert cells[..j] == cells;
    }
  }

  lemma {:induction false} RowWidthsErrPersists(rows: seq<Element>, j: nat)
    requires j <= |rows| && RowWidths(rows[..j]).Err?
    ensures RowWidths(rows) == RowWidths(rows[..j])
    decreases |rows| - j
  {
    if j < |rows| {
      assert rows[..j + 1][..j] == rows[..j];
      RowWidthsErrPersists(rows, j + 1);
    } else {
      assert rows[..j] == rows;
    }
  }

  /** The inner loop of `action_import`: `col` over the cells of one row. */
  method CountColumns(cells: seq<Element>) returns (r: Result<int, ScanError>)
    ensures r == RowWidth(cells)
  {
    var col := 0;
    var j := 0;
    while j < |cells|
      invariant 0 <= j <= |cells|
      invariant RowWidth(cells[..j]) == Ok(col)
    {
      RowWidthStep(cells, j, col);
      var span := Attr(cells[j], "number-columns-repeated");
      if span.Some? && span.value != "" {
        var n := ParseInt(span.value);
        if n.None? {
          RowWidthErrPersists(cells, j + 1);
          return Err(BadRepeatCount(span.value));
        }
        col := col + n.value - 1;
      }
      col := col + 1;
      j := j + 1;
    }
    assert cells[..j] == cells;
    r := Ok(col);
  }

  /** The outer loop: the column count of every row in turn, stopping at the first
      row whose count fails. */
  method CountRows(rows: seq<Element>) returns (r: Result<seq<int>, ScanError>)
    ensures r == RowWidths(rows)
  {
    var widths: seq<int> := [];
    var i := 0;
    while i < |rows|
      invariant 0 <= i <= |rows|
      invariant RowWidths(rows[..i]) == Ok(widths)
    {
      var col := CountColumns(ChildrenTagged(rows[i], "table-cell"));
      RowWidthsStep(rows, i);
      if col.Err? {
        RowWidthsErrPersists(rows, i + 1);
        return Err(col.error);
      }
      widths := widths + [col.value];
      i := i + 1;
    }
    assert rows[..i] == rows;
    r := Ok(widths);
  }

  /** `action_import` on the file's text: strip the prefixes, parse (`parse` stands
      for `ET.fromstring`), find the BENJY table, and count the columns of each of
      its rows; the result is the sequence of counts `col` reaches. */
  method ActionImport(content: string, parse: string -> Option<Element>)
    returns (r: Result<seq<int>, ScanError>)
    ensures match parse(StripNamespaces(content))
            case None => r == Err(Unparsable)
            case Some(root) =>
              match FindBenjyTable(root)
              case None => r == Err(NoBenjyTable)
              case Some(table) => r == RowWidths(ChildrenTagged(table, "table-row"))
  {
    var stripped := StripNamespaces(content);
    var parsed := parse(stripped);
    if parsed.None? {
      return Err(Unparsable);
    }
    var found := FindBenjyTable(parsed.value);
    if found.None? {
      return Err(NoBenjyTable);
    }
    r := CountRows(ChildrenTagged(found.value, "table-row"));
  }
}
