/**
 * The level description and its text format.
 *
 * A level file is a grid of characters, one per tile: 'S' a start tile (one
 * rover each), 'E' a finish tile (one crystal each), 'P' a path tile, 'D' a
 * power station, 'I' a relay, 'C' a crater, and the digits '1' to '8' path
 * tiles that are also wire endpoints: the first occurrence of a digit opens a
 * wire and the next occurrence of the same digit closes it. Any other
 * character is an empty cell. Rows are read top to bottom; the first row ends
 * up with the largest y coordinate.
 */
module Level {
  import opened Wrappers

  /** The game's `i8`; leaving this range is an overflow panic. */
  type I8 = x: int | -128 <= x <= 127

  type Coord = (int, int)

  /** Tile kinds (the game's INITIVM, FINIS, SEMITA, SATVRNALIA, CRATERA, INGENII). */
  datatype TileKind = Start | Finish | Path | PowerStation | Crater | Relay

  /** A tile and whether it lies in shadow. */
  datatype Tile = Tile(kind: TileKind, shadow: bool)

  /** A parsed level (the game's GRADVM); the shadow-mask image handle is not modelled. */
  datatype Level = Level(
    tiles: map<Coord, Tile>,
    width: I8,
    height: I8,
    index: nat,
    roverCount: I8,
    crystalCount: I8,
    links: map<Coord, Coord>)

  function Max(a: int, b: int): int { if a < b then b else a }

  // ---------------------------------------------------------------------------
  // The text format, described position by position

  /** Wire digits: the pattern `'1'..'9'` is half open, so '9' is not one. */
  predicate IsLinkDigit(c: char) { '1' <= c <= '8' }

  /** The tile a character stands for, if any. */
  function KindOf(c: char): Option<TileKind>
  {
    if c == 'S' then Some(Start)
    else if c == 'E' then Some(Finish)
    else if c == 'P' || IsLinkDigit(c) then Some(Path)
    else if c == 'D' then Some(PowerStation)
    else if c == 'I' then Some(Relay)
    else if c == 'C' then Some(Crater)
    else None
  }

  /** The column reached after reading `s`: every character but a newline advances it by one. */
  function Columns(s: string): nat
  {
    if s == [] then 0 else Columns(s[..|s| - 1]) + (if s[|s| - 1] == '\n' then 0 else 1)
  }

  function Count(s: string, c: char): nat { multiset(s)[c] }

  /** Occurrences of `c` in all the lines. */
  function CountIn(lines: seq<string>, c: char): nat
  {
    if lines == [] then 0 else CountIn(lines[..|lines| - 1], c) + Count(lines[|lines| - 1], c)
  }

  /** The longest line, counted in columns. */
  function MaxColumns(lines: seq<string>): nat
  {
    if lines == [] then 0 else Max(MaxColumns(lines[..|lines| - 1]), Columns(lines[|lines| - 1]))
  }

  /** The coordinate of character `i` of line `r`, when the first line has y == top. */
  function Cell(lines: seq<string>, r: nat, i: nat, top: int): Coord
    requires r < |lines| && i <= |lines[r]|
  {
    (Columns(lines[r][..i]), top - r)
  }

  ghost predicate IsTileCell(lines: seq<string>, r: int, i: int)
  {
    0 <= r < |lines| && 0 <= i < |lines[r]| && KindOf(lines[r][i]).Some?
  }

  /** The coordinates of the occurrences of `d` in one line at height y, left to right. */
  function RowOcc(line: string, d: char, y: int): seq<Coord>
  {
    if line == [] then []
    else
      var n := |line| - 1;
      RowOcc(line[..n], d, y) + (if line[n] == d then [(Columns(line[..n]), y)] else [])
  }

  /** The coordinates of the occurrences of `d` in reading order, the first line at y == top. */
  function Occ(lines: seq<string>, d: char, top: int): seq<Coord>
  {
    if lines == [] then []
    else
      var n := |lines| - 1;
      Occ(lines[..n], d, top) + RowOcc(lines[n], d, top - n)
  }

  // ---------------------------------------------------------------------------
  // What a parsed level looks like

  /** Each tile character gives its tile, unshadowed, and every tile comes from one. */
  ghost predicate TilesMatch(lines: seq<string>, tiles: map<Coord, Tile>, top: int)
  {
    CellsPlaced(lines, tiles, top) && TilesFromCells(lines, tiles, top)
  }

  ghost predicate CellsPlaced(lines: seq<string>, tiles: map<Coord, Tile>, top: int)
  {
    forall r, i :: IsTileCell(lines, r, i) ==>
      Cell(lines, r, i, top) in tiles && tiles[Cell(lines, r, i, top)] == Tile(KindOf(lines[r][i]).value, false)
  }

  ghost predicate TilesFromCells(lines: seq<string>, tiles: map<Coord, Tile>, top: int)
  {
    forall p :: p in tiles ==> exists r, i :: IsTileCell(lines, r, i) && Cell(lines, r, i, top) == p
  }

  ghost predicate Symmetric(links: map<Coord, Coord>)
  {
    forall p :: p in links ==> links[p] in links && links[links[p]] == p
  }

  /** Occurrences 0 and 1, 2 and 3, ... of a digit are wired to each other, both ways. */
  ghost predicate Paired(o: seq<Coord>, links: map<Coord, Coord>)
  {
    forall j :: 0 <= j && j + 1 < |o| && j % 2 == 0 ==>
      o[j] in links && links[o[j]] == o[j + 1] && o[j + 1] in links && links[o[j + 1]] == o[j]
  }

  /** An odd occurrence left over at the end has no wire. */
  ghost predicate Unmatched(o: seq<Coord>, links: map<Coord, Coord>)
  {
    |o| % 2 == 1 ==> o[|o| - 1] !in links
  }

  /** Every wire endpoint is an occurrence of a digit that found its partner. */
  ghost predicate LinksFromPairs(lines: seq<string>, links: map<Coord, Coord>, top: int)
  {
    forall p :: p in links ==> exists d :: IsLinkDigit(d) && FromPair(Occ(lines, d, top), p)
  }

  // ---------------------------------------------------------------------------
  // The state of the scan after line r is read up to character i

  function Line(lines: seq<string>, r: nat): string
  {
    if r < |lines| then lines[r] else ""
  }

  /** Cell (R, I) has been read once the scan stands at character i of line r. */
  ghost predicate Processed(lines: seq<string>, r: nat, i: nat, R: int, I: int)
  {
    IsTileCell(lines, R, I) && (R < r || (R == r && I < i))
  }

  /** Raw coordinates (x, -row) strictly before the scan position (x, -r). */
  ghost predicate Before(p: Coord, r: int, x: int)
  {
    p.1 > -r || (p.1 == -r && p.0 < x)
  }

  function SoFar(lines: seq<string>, r: nat, i: nat, d: char): seq<Coord>
    requires r <= |lines| && i <= |Line(lines, r)|
  {
    Occ(lines[..r], d, 0) + RowOcc(Line(lines, r)[..i], d, -(r as int))
  }

  ghost predicate CountsInv(lines: seq<string>, r: nat, i: nat, grid: Level)
    requires r <= |lines| && i <= |Line(lines, r)|
  {
    && grid.height == r
    && grid.roverCount == CountIn(lines[..r], 'S') + Count(Line(lines, r)[..i], 'S')
    && grid.crystalCount == CountIn(lines[..r], 'E') + Count(Line(lines, r)[..i], 'E')
    && grid.width == Max(MaxColumns(lines[..r]), Columns(Line(lines, r)[..i]))
  }

  ghost predicate TilesInv(lines: seq<string>, r: nat, i: nat, tiles: map<Coord, Tile>)
    requires r <= |lines| && i <= |Line(lines, r)|
  {
    TilesPlaced(lines, r, i, tiles) && TilesBefore(lines, r, i, tiles) && TilesRead(lines, r, i, tiles)
  }

  /** Every tile character read so far has its tile. */
  ghost predicate TilesPlaced(lines: seq<string>, r: nat, i: nat, tiles: map<Coord, Tile>)
  {
    forall R, I :: Processed(lines, r, i, R, I) ==>
      Cell(lines, R, I, 0) in tiles && tiles[Cell(lines, R, I, 0)] == Tile(KindOf(lines[R][I]).value, false)
  }

  /** Every tile lies before the scan position. */
  ghost predicate TilesBefore(lines: seq<string>, r: nat, i: nat, tiles: map<Coord, Tile>)
    requires r <= |lines| && i <= |Line(lines, r)|
  {
    forall p :: p in tiles ==> Before(p, r, Columns(Line(lines, r)[..i]))
  }

  /** Every tile comes from a tile character read so far. */
  ghost predicate TilesRead(lines: seq<string>, r: nat, i: nat, tiles: map<Coord, Tile>)
  {
    forall p :: p in tiles ==> exists R, I :: Processed(lines, r, i, R, I) && Cell(lines, R, I, 0) == p
  }

  ghost predicate PendingMatches(o: seq<Coord>, d: char, pending: map<char, Coord>)
  {
    (d in pending <==> |o| % 2 == 1) && (d in pending ==> pending[d] == o[|o| - 1])
  }

  /** Position j of `o` holds p, and that occurrence has found its partner. */
  ghost predicate FromPair(o: seq<Coord>, p: Coord)
  {
    exists j :: 0 <= j < |o| - |o| % 2 && o[j] == p
  }

  ghost predicate LinksBefore(links: map<Coord, Coord>, r: int, x: int)
  {
    forall p :: p in links ==> Before(p, r, x)
  }

  /** Pending ends are digit cells already read that carry no wire yet. */
  ghost predicate PendingFresh(links: map<Coord, Coord>, pending: map<char, Coord>, r: int, x: int)
  {
    forall d :: d in pending ==> IsLinkDigit(d) && Before(pending[d], r, x) && pending[d] !in links
  }

  ghost predicate PendingDistinct(pending: map<char, Coord>)
  {
    forall d, e :: d in pending && e in pending && d != e ==> pending[d] != pending[e]
  }

  ghost predicate PendingTracks(pending: map<char, Coord>, so: char -> seq<Coord>)
  {
    forall d :: IsLinkDigit(d) ==> PendingMatches(so(d), d, pending)
  }

  ghost predicate AllPaired(links: map<Coord, Coord>, so: char -> seq<Coord>)
  {
    forall d :: IsLinkDigit(d) ==> Paired(so(d), links)
  }

  ghost predicate KeysFromPairs(links: map<Coord, Coord>, so: char -> seq<Coord>)
  {
    forall p :: p in links ==> exists d :: IsLinkDigit(d) && FromPair(so(d), p)
  }

  /**
   * The wires and pending ends, when `so(d)` lists the occurrences of digit d read so far
   * and the scan stands at raw position (x, -r).
   */
  ghost predicate WiresOk(links: map<Coord, Coord>, pending: map<char, Coord>, r: int, x: int, so: char -> seq<Coord>)
  {
    && Symmetric(links)
    && LinksBefore(links, r, x)
    && PendingFresh(links, pending, r, x)
    && PendingDistinct(pending)
    && PendingTracks(pending, so)
    && AllPaired(links, so)
    && KeysFromPairs(links, so)
  }

  /** The occurrence lists read so far, as one function of the digit. */
  function SoFarOf(lines: seq<string>, r: nat, i: nat): char -> seq<Coord>
    requires r <= |lines| && i <= |Line(lines, r)|
    ensures forall d :: SoFarOf(lines, r, i)(d) == SoFar(lines, r, i, d)
  {
    d => SoFar(lines, r, i, d)
  }

  ghost predicate LinksInv(lines: seq<string>, r: nat, i: nat, links: map<Coord, Coord>, pending: map<char, Coord>)
    requires r <= |lines| && i <= |Line(lines, r)|
  {
    WiresOk(links, pending, r, Columns(Line(lines, r)[..i]), SoFarOf(lines, r, i))
  }

  ghost predicate ScanInv(lines: seq<string>, r: nat, i: nat, grid: Level, pending: map<char, Coord>)
    requires r <= |lines| && i <= |Line(lines, r)|
  {
    CountsInv(lines, r, i, grid) && TilesInv(lines, r, i, grid.tiles) && LinksInv(lines, r, i, grid.links, pending)
  }

  // ---------------------------------------------------------------------------
  // Facts about the position functions

  lemma ColumnsStep(s: string, i: nat)
    requires i < |s|
    ensures Columns(s[..i + 1]) == Columns(s[..i]) + (if s[i] == '\n' then 0 else 1)
  {
    assert s[..i + 1][..i] == s[..i];
  }

  lemma {:induction false} ColumnsPrefix(s: string, i: nat)
    requires i <= |s|
    ensures Columns(s[..i]) <= Columns(s)
    decreases |s| - i
  {
    if i < |s| {
      ColumnsStep(s, i);
      ColumnsPrefix(s, i + 1);
    } else {
      assert s[..i] == s;
    }
  }

  lemma CountStep(s: string, i: nat, c: char)
    requires i < |s|
    ensures Count(s[..i + 1], c) == Count(s[..i], c) + (if s[i] == c then 1 else 0)
  {
    assert s[..i + 1] == s[..i] + [s[i]];
  }

  lemma CountPrefix(s: string, i: nat, c: char)
    requires i <= |s|
    ensures Count(s[..i], c) <= Count(s, c)
  {
    assert s == s[..i] + s[i..];
  }

  lemma {:induction false} CountInPrefix(lines: seq<string>, r: nat, c: char)
    requires r <= |lines|
    ensures CountIn(lines[..r], c) <= CountIn(lines, c)
    decreases |lines| - r
  {
    if r < |lines| {
      CountInPrefix(lines[..|lines| - 1], r, c);
      assert lines[..|lines| - 1][..r] == lines[..r];
    } else {
      assert lines[..r] == lines;
    }
  }

  lemma RowOccStep(s: string, i: nat, d: char, y: int)
    requires i < |s|
    ensures RowOcc(s[..i + 1], d, y) == RowOcc(s[..i], d, y) + (if s[i] == d then [(Columns(s[..i]), y)] else [])
  {
    assert s[..i + 1][..i] == s[..i];
  }

  lemma SoFarStep(lines: seq<string>, r: nat, i: nat, d: char)
    requires r < |lines| && i < |lines[r]|
    ensures SoFar(lines, r, i + 1, d) == SoFar(lines, r, i, d) + (if lines[r][i] == d then [Cell(lines, r, i, 0)] else [])
  {
    RowOccStep(lines[r], i, d, -(r as int));
  }

  lemma SoFarNextRow(lines: seq<string>, r: nat, d: char)
    requires r < |lines|
    ensures SoFar(lines, r + 1, 0, d) == SoFar(lines, r, |lines[r]|, d)
  {
    assert lines[..r + 1][..r] == lines[..r];
    assert lines[r][..|lines[r]|] == lines[r];
  }

  // ---------------------------------------------------------------------------
  // One character of the scan

  lemma TilesStep(lines: seq<string>, r: nat, i: nat, tiles: map<Coord, Tile>, tiles': map<Coord, Tile>)
    requires r < |lines| && i < |lines[r]|
    requires TilesInv(lines, r, i, tiles)
    requires KindOf(lines[r][i]).Some? ==> tiles' == tiles[Cell(lines, r, i, 0) := Tile(KindOf(lines[r][i]).value, false)]
    requires KindOf(lines[r][i]).None? ==> tiles' == tiles
    ensures TilesInv(lines, r, i + 1, tiles')
  {
    assert Line(lines, r) == lines[r];
    ColumnsStep(lines[r], i);
    TilesStepPlaced(lines, r, i, tiles, tiles');
    TilesStepBefore(lines, r, i, tiles, tiles');
    TilesStepRead(lines, r, i, tiles, tiles');
  }

  lemma TilesStepPlaced(lines: seq<string>, r: nat, i: nat, tiles: map<Coord, Tile>, tiles': map<Coord, Tile>)
    requires r < |lines| && i < |lines[r]|
    requires TilesPlaced(lines, r, i, tiles) && TilesBefore(lines, r, i, tiles)
    requires KindOf(lines[r][i]).Some? ==> tiles' == tiles[Cell(lines, r, i, 0) := Tile(KindOf(lines[r][i]).value, false)]
    requires KindOf(lines[r][i]).None? ==> tiles' == tiles
    ensures TilesPlaced(lines, r, i + 1, tiles')
  {
    assert Line(lines, r) == lines[r];
    var here := Cell(lines, r, i, 0);
    assert forall p :: p in tiles ==> p != here;
    forall R, I | Processed(lines, r, i + 1, R, I)
      ensures Cell(lines, R, I, 0) in tiles' && tiles'[Cell(lines, R, I, 0)] == Tile(KindOf(lines[R][I]).value, false)
    {
      if !(R == r && I == i) {
        assert Processed(lines, r, i, R, I);
      }
    }
  }

  lemma TilesStepBefore(lines: seq<string>, r: nat, i: nat, tiles: map<Coord, Tile>, tiles': map<Coord, Tile>)
    requires r < |lines| && i < |lines[r]|
    requires TilesBefore(lines, r, i, tiles)
    requires Columns(lines[r][..i + 1]) == Columns(lines[r][..i]) + (if lines[r][i] == '\n' then 0 else 1)
    requires KindOf(lines[r][i]).Some? ==> tiles' == tiles[Cell(lines, r, i, 0) := Tile(KindOf(lines[r][i]).value, false)]
    requires KindOf(lines[r][i]).None? ==> tiles' == tiles
    ensures TilesBefore(lines, r, i + 1, tiles')
  {
    var line := lines[r];
    assert Line(lines, r) == line;
    var here := Cell(lines, r, i, 0);
    forall p | p in tiles' ensures Before(p, r, Columns(line[..i + 1])) {
      if p != here {
        assert Before(p, r, Columns(line[..i]));
      }
    }
  }

  lemma TilesStepRead(lines: seq<string>, r: nat, i: nat, tiles: map<Coord, Tile>, tiles': map<Coord, Tile>)
    requires r < |lines| && i < |lines[r]|
    requires TilesRead(lines, r, i, tiles)
    requires KindOf(lines[r][i]).Some? ==> tiles' == tiles[Cell(lines, r, i, 0) := Tile(KindOf(lines[r][i]).value, false)]
    requires KindOf(lines[r][i]).None? ==> tiles' == tiles
    ensures TilesRead(lines, r, i + 1, tiles')
  {
    var here := Cell(lines, r, i, 0);
    forall p | p in tiles'
      ensures exists R, I :: Processed(lines, r, i + 1, R, I) && Cell(lines, R, I, 0) == p
    {
      if p == here && KindOf(lines[r][i]).Some? {
        assert Processed(lines, r, i + 1, r, i);
      } else {
        var R, I :| Processed(lines, r, i, R, I) && Cell(lines, R, I, 0) == p;
        assert Processed(lines, r, i + 1, R, I);
      }
    }
  }

  lemma FromPairAppend(o: seq<Coord>, extra: seq<Coord>, p: Coord)
    requires FromPair(o, p)
    ensures FromPair(o + extra, p)
  {
    var j :| 0 <= j < |o| - |o| % 2 && o[j] == p;
    assert (o + extra)[j] == p;
  }

  /** A map that keeps every wire of `links` keeps every pairing `links` had. */
  lemma PairedFrame(o: seq<Coord>, links: map<Coord, Coord>, links': map<Coord, Coord>)
    requires Paired(o, links)
    requires forall p :: p in links ==> p in links' && links'[p] == links[p]
    ensures Paired(o, links')
  {
  }

  lemma PairedAppend(o: seq<Coord>, extra: seq<Coord>, links: map<Coord, Coord>)
    requires Paired(o, links) && |extra| <= 1
    requires |o| % 2 == 0 || |extra| == 0
    ensures Paired(o + extra, links)
  {
    var o' := o + extra;
    forall j | 0 <= j && j + 1 < |o'| && j % 2 == 0
      ensures o'[j] in links && links[o'[j]] == o'[j + 1] && o'[j + 1] in links && links[o'[j + 1]] == o'[j]
    {
      assert j + 1 < |o|;
      assert o'[j] == o[j] && o'[j + 1] == o[j + 1];
    }
  }

  lemma PairedClose(o: seq<Coord>, here: Coord, links: map<Coord, Coord>)
    requires Paired(o, links) && |o| % 2 == 1
    requires here in links && links[here] == o[|o| - 1] && o[|o| - 1] in links && links[o[|o| - 1]] == here
    ensures Paired(o + [here], links)
  {
    var o' := o + [here];
    forall j | 0 <= j && j + 1 < |o'| && j % 2 == 0
      ensures o'[j] in links && links[o'[j]] == o'[j + 1] && o'[j + 1] in links && links[o'[j + 1]] == o'[j]
    {
      if j + 1 < |o| {
        assert o'[j] == o[j] && o'[j + 1] == o[j + 1];
      } else {
        assert o'[j] == o[|o| - 1] && o'[j + 1] == here;
      }
    }
  }

  /** Reading a character that is not a wire digit leaves the wires and the pending ends alone. */
  lemma WiresOther(links: map<Coord, Coord>, pending: map<char, Coord>, r: int, x: int, x': int,
                   so: char -> seq<Coord>, so': char -> seq<Coord>)
    requires WiresOk(links, pending, r, x, so) && x <= x'
    requires forall e :: IsLinkDigit(e) ==> so'(e) == so(e)
    ensures WiresOk(links, pending, r, x', so')
  {
    assert PendingTracks(pending, so');
    assert AllPaired(links, so');
    forall p | p in links ensures exists d :: IsLinkDigit(d) && FromPair(so'(d), p) {
      var d :| IsLinkDigit(d) && FromPair(so(d), p);
      assert so'(d) == so(d);
    }
  }

  lemma KeysFromPairsAppend(links: map<Coord, Coord>, so: char -> seq<Coord>, so': char -> seq<Coord>, c: char, here: Coord)
    requires KeysFromPairs(links, so)
    requires forall e :: so'(e) == so(e) + (if e == c then [here] else [])
    ensures KeysFromPairs(links, so')
  {
    forall p | p in links ensures exists d :: IsLinkDigit(d) && FromPair(so'(d), p) {
      var d :| IsLinkDigit(d) && FromPair(so(d), p);
      FromPairAppend(so(d), if c == d then [here] else [], p);
    }
  }

  lemma OpenTracks(links: map<Coord, Coord>, pending: map<char, Coord>, so: char -> seq<Coord>, so': char -> seq<Coord>,
                   c: char, here: Coord)
    requires PendingTracks(pending, so) && AllPaired(links, so) && c !in pending
    requires forall e :: so'(e) == so(e) + (if e == c then [here] else [])
    ensures PendingTracks(pending[c := here], so') && AllPaired(links, so')
  {
    forall e | IsLinkDigit(e)
      ensures PendingMatches(so'(e), e, pending[c := here])
      ensures Paired(so'(e), links)
    {
      assert PendingMatches(so(e), e, pending);
      PairedAppend(so(e), if c == e then [here] else [], links);
    }
  }

  lemma OpenFresh(links: map<Coord, Coord>, pending: map<char, Coord>, r: int, x: int, c: char)
    requires LinksBefore(links, r, x) && PendingFresh(links, pending, r, x) && PendingDistinct(pending) && IsLinkDigit(c)
    ensures LinksBefore(links, r, x + 1)
    ensures PendingFresh(links, pending[c := (x, -r)], r, x + 1)
    ensures PendingDistinct(pending[c := (x, -r)])
  {
  }

  /** The first (or the next odd) occurrence of a digit registers its cell as a pending end. */
  lemma WiresOpen(links: map<Coord, Coord>, pending: map<char, Coord>, r: int, x: int, c: char,
                  so: char -> seq<Coord>, so': char -> seq<Coord>)
    requires WiresOk(links, pending, r, x, so)
    requires IsLinkDigit(c) && c !in pending
    requires forall e :: so'(e) == so(e) + (if e == c then [(x, -r)] else [])
    ensures WiresOk(links, pending[c := (x, -r)], r, x + 1, so')
  {
    var here := (x, -r);
    OpenTracks(links, pending, so, so', c, here);
    KeysFromPairsAppend(links, so, so', c, here);
    OpenFresh(links, pending, r, x, c);
  }

  lemma CloseSymmetric(links: map<Coord, Coord>, a: Coord, here: Coord)
    requires Symmetric(links) && a != here && a !in links && here !in links
    ensures Symmetric(links[a := here][here := a])
  {
    var links' := links[a := here][here := a];
    forall p | p in links' ensures links'[p] in links' && links'[links'[p]] == p {
      if p != a && p != here {
        assert links'[p] == links[p];
      }
    }
  }

  lemma CloseTracks(links: map<Coord, Coord>, pending: map<char, Coord>, so: char -> seq<Coord>, so': char -> seq<Coord>,
                    c: char, here: Coord)
    requires PendingTracks(pending, so) && AllPaired(links, so) && IsLinkDigit(c) && c in pending
    requires pending[c] != here && pending[c] !in links && here !in links
    requires forall e :: so'(e) == so(e) + (if e == c then [here] else [])
    ensures PendingTracks(pending - {c}, so') && AllPaired(links[pending[c] := here][here := pending[c]], so')
  {
    var a := pending[c];
    var links' := links[a := here][here := a];
    assert forall p :: p in links ==> p in links' && links'[p] == links[p];
    var o := so(c);
    assert PendingMatches(o, c, pending);
    forall e | IsLinkDigit(e)
      ensures PendingMatches(so'(e), e, pending - {c})
      ensures Paired(so'(e), links')
    {
      assert PendingMatches(so(e), e, pending);
      PairedFrame(so(e), links, links');
      if e == c {
        PairedClose(o, here, links');
      } else {
        assert so'(e) == so(e);
      }
    }
  }

  lemma CloseKeys(links: map<Coord, Coord>, pending: map<char, Coord>, so: char -> seq<Coord>, so': char -> seq<Coord>,
                  c: char, here: Coord)
    requires KeysFromPairs(links, so) && PendingTracks(pending, so) && IsLinkDigit(c) && c in pending
    requires forall e :: so'(e) == so(e) + (if e == c then [here] else [])
    ensures KeysFromPairs(links[pending[c] := here][here := pending[c]], so')
  {
    var a := pending[c];
    var links' := links[a := here][here := a];
    var o := so(c);
    assert PendingMatches(o, c, pending);
    var o' := so'(c);
    assert o' == o + [here];
    forall p | p in links' ensures exists d :: IsLinkDigit(d) && FromPair(so'(d), p) {
      if p == a {
        assert o'[|o| - 1] == p;
        assert FromPair(o', p);
      } else if p == here {
        assert o'[|o|] == p;
        assert FromPair(o', p);
      } else {
        var d :| IsLinkDigit(d) && FromPair(so(d), p);
        FromPairAppend(so(d), if c == d then [here] else [], p);
      }
    }
  }

  lemma CloseFresh(links: map<Coord, Coord>, pending: map<char, Coord>, r: int, x: int, c: char)
    requires LinksBefore(links, r, x) && PendingFresh(links, pending, r, x) && PendingDistinct(pending) && c in pending
    ensures LinksBefore(links[pending[c] := (x, -r)][(x, -r) := pending[c]], r, x + 1)
    ensures PendingFresh(links[pending[c] := (x, -r)][(x, -r) := pending[c]], pending - {c}, r, x + 1)
    ensures PendingDistinct(pending - {c})
  {
  }

  /** The next occurrence of a pending digit closes its wire in both directions. */
  lemma WiresClose(links: map<Coord, Coord>, pending: map<char, Coord>, r: int, x: int, c: char,
                   so: char -> seq<Coord>, so': char -> seq<Coord>)
    requires WiresOk(links, pending, r, x, so)
    requires IsLinkDigit(c) && c in pending
    requires forall e :: so'(e) == so(e) + (if e == c then [(x, -r)] else [])
    ensures WiresOk(links[pending[c] := (x, -r)][(x, -r) := pending[c]], pending - {c}, r, x + 1, so')
  {
    var here := (x, -r);
    var a := pending[c];
    var links' := links[a := here][here := a];
    assert a != here && a !in links && here !in links;
    CloseSymmetric(links, a, here);
    CloseTracks(links, pending, so, so', c, here);
    CloseKeys(links, pending, so, so', c, here);
    CloseFresh(links, pending, r, x, c);
  }

  /** How one character of the level scan changes the wires and the pending ends. */
  lemma LinksStep(lines: seq<string>, r: nat, i: nat,
                  links: map<Coord, Coord>, pending: map<char, Coord>,
                  links': map<Coord, Coord>, pending': map<char, Coord>)
    requires r < |lines| && i < |lines[r]|
    requires LinksInv(lines, r, i, links, pending)
    requires var c, here := lines[r][i], Cell(lines, r, i, 0);
      if !IsLinkDigit(c) then links' == links && pending' == pending
      else if c in pending then links' == links[pending[c] := here][here := pending[c]] && pending' == pending - {c}
      else links' == links && pending' == pending[c := here]
    ensures LinksInv(lines, r, i + 1, links', pending')
  {
    var c := lines[r][i];
    if !IsLinkDigit(c) {
      LinksStepOther(lines, r, i, links, pending);
    } else if c in pending {
      LinksStepClose(lines, r, i, links, pending);
    } else {
      LinksStepOpen(lines, r, i, links, pending);
      assert Cell(lines, r, i, 0) == (Columns(lines[r][..i]), -(r as int));
    }
  }

  /** The occurrence that character i of line r adds to the list of digit e. */
  function Here(lines: seq<string>, r: nat, i: nat, e: char): seq<Coord>
    requires r < |lines| && i < |lines[r]|
  {
    if e == lines[r][i] then [(Columns(lines[r][..i]), -(r as int))] else []
  }

  /** The occurrence lists one character further on. */
  lemma SoFarAdvance(lines: seq<string>, r: nat, i: nat)
    requires r < |lines| && i < |lines[r]|
    ensures forall e :: SoFarOf(lines, r, i + 1)(e) == SoFarOf(lines, r, i)(e) + Here(lines, r, i, e)
  {
    forall e ensures SoFar(lines, r, i + 1, e) == SoFar(lines, r, i, e) + Here(lines, r, i, e) {
      SoFarStep(lines, r, i, e);
    }
  }

  lemma LinksStepOther(lines: seq<string>, r: nat, i: nat, links: map<Coord, Coord>, pending: map<char, Coord>)
    requires r < |lines| && i < |lines[r]| && !IsLinkDigit(lines[r][i])
    requires LinksInv(lines, r, i, links, pending)
    ensures LinksInv(lines, r, i + 1, links, pending)
  {
    var line := lines[r];
    assert Line(lines, r) == line;
    ColumnsStep(line, i);
    assert Cell(lines, r, i, 0) == (Columns(line[..i]), -(r as int));
    SoFarAdvance(lines, r, i);
    WiresOther(links, pending, r, Columns(line[..i]), Columns(line[..i + 1]),
               SoFarOf(lines, r, i), SoFarOf(lines, r, i + 1));
  }

  lemma LinksStepClose(lines: seq<string>, r: nat, i: nat, links: map<Coord, Coord>, pending: map<char, Coord>)
    requires r < |lines| && i < |lines[r]| && IsLinkDigit(lines[r][i]) && lines[r][i] in pending
    requires LinksInv(lines, r, i, links, pending)
    ensures var c, here := lines[r][i], Cell(lines, r, i, 0);
      LinksInv(lines, r, i + 1, links[pending[c] := here][here := pending[c]], pending - {c})
  {
    var line := lines[r];
    assert Line(lines, r) == line;
    ColumnsStep(line, i);
    assert Cell(lines, r, i, 0) == (Columns(line[..i]), -(r as int));
    SoFarAdvance(lines, r, i);
    WiresClose(links, pending, r, Columns(line[..i]), line[i],
               SoFarOf(lines, r, i), SoFarOf(lines, r, i + 1));
  }

  lemma LinksStepOpen(lines: seq<string>, r: nat, i: nat, links: map<Coord, Coord>, pending: map<char, Coord>)
    requires r < |lines| && i < |lines[r]| && IsLinkDigit(lines[r][i]) && lines[r][i] !in pending
    requires LinksInv(lines, r, i, links, pending)
    ensures LinksInv(lines, r, i + 1, links, pending[lines[r][i] := (Columns(lines[r][..i]), -(r as int))])
  {
    var line := lines[r];
    assert Line(lines, r) == line;
    var x := Columns(line[..i]);
    var pending' := pending[line[i] := (x, -(r as int))];
    assert WiresOk(links, pending', r, x + 1, SoFarOf(lines, r, i + 1)) by {
      SoFarAdvance(lines, r, i);
      WiresOpen(links, pending, r, x, line[i], SoFarOf(lines, r, i), SoFarOf(lines, r, i + 1));
    }
    ColumnsStep(line, i);
    WiresAsLinksInv(lines, r, i + 1, links, pending', x + 1);
  }

  lemma WiresAsLinksInv(lines: seq<string>, r: nat, i: nat, links: map<Coord, Coord>, pending: map<char, Coord>, x: int)
    requires r <= |lines| && i <= |Line(lines, r)| && x == Columns(Line(lines, r)[..i])
    requires WiresOk(links, pending, r, x, SoFarOf(lines, r, i))
    ensures LinksInv(lines, r, i, links, pending)
  {
  }

  lemma CountsStep(lines: seq<string>, r: nat, i: nat, grid: Level)
    requires r < |lines| && i < |lines[r]|
    requires CountsInv(lines, r, i, grid)
    ensures var c := lines[r][i];
      grid.roverCount + (if c == 'S' then 1 else 0) == CountIn(lines[..r], 'S') + Count(lines[r][..i + 1], 'S')
      && grid.crystalCount + (if c == 'E' then 1 else 0) == CountIn(lines[..r], 'E') + Count(lines[r][..i + 1], 'E')
      && Max(Columns(lines[r][..i + 1]), grid.width) == Max(MaxColumns(lines[..r]), Columns(lines[r][..i + 1]))
  {
    CountStep(lines[r], i, 'S');
    CountStep(lines[r], i, 'E');
    ColumnsStep(lines[r], i);
  }

  /** Reaching the end of line r is the same as standing at the start of line r + 1. */
  lemma NextRow(lines: seq<string>, r: nat, grid: Level, pending: map<char, Coord>)
    requires r < |lines| <= 127
    requires ScanInv(lines, r, |lines[r]|, grid, pending)
    ensures ScanInv(lines, r + 1, 0, grid.(height := grid.height + 1), pending)
  {
    assert Line(lines, r) == lines[r];
    NextRowCounts(lines, r, grid);
    NextRowTiles(lines, r, grid.tiles);
    NextRowLinks(lines, r, grid.links, pending);
  }

  lemma NextRowCounts(lines: seq<string>, r: nat, grid: Level)
    requires r < |lines| <= 127
    requires CountsInv(lines, r, |lines[r]|, grid)
    ensures CountsInv(lines, r + 1, 0, grid.(height := grid.height + 1))
  {
    var line := lines[r];
    assert Line(lines, r) == line;
    assert line[..|line|] == line;
    assert lines[..r + 1][..r] == lines[..r];
    assert Line(lines, r + 1)[..0] == [];
  }

  lemma NextRowTiles(lines: seq<string>, r: nat, tiles: map<Coord, Tile>)
    requires r < |lines|
    requires TilesInv(lines, r, |lines[r]|, tiles)
    ensures TilesInv(lines, r + 1, 0, tiles)
  {
    var line := lines[r];
    assert Line(lines, r) == line;
    assert line[..|line|] == line;
    assert Line(lines, r + 1)[..0] == [];
    forall R, I | Processed(lines, r + 1, 0, R, I) ensures Processed(lines, r, |line|, R, I) { }
    forall p | p in tiles ensures exists R, I :: Processed(lines, r + 1, 0, R, I) && Cell(lines, R, I, 0) == p {
      var R, I :| Processed(lines, r, |line|, R, I) && Cell(lines, R, I, 0) == p;
      assert Processed(lines, r + 1, 0, R, I);
    }
  }

  lemma NextRowLinks(lines: seq<string>, r: nat, links: map<Coord, Coord>, pending: map<char, Coord>)
    requires r < |lines|
    requires LinksInv(lines, r, |lines[r]|, links, pending)
    ensures LinksInv(lines, r + 1, 0, links, pending)
  {
    var line := lines[r];
    assert Line(lines, r) == line;
    assert line[..|line|] == line;
    assert Line(lines, r + 1)[..0] == [];
    forall d ensures SoFar(lines, r + 1, 0, d) == SoFar(lines, r, |line|, d) {
      SoFarNextRow(lines, r, d);
    }
    var so := SoFarOf(lines, r, |line|);
    var so' := SoFarOf(lines, r + 1, 0);
    WiresOther(links, pending, r, Columns(line), Columns(line), so, so');
    WiresNextRow(links, pending, r, Columns(line), so');
  }

  lemma WiresNextRow(links: map<Coord, Coord>, pending: map<char, Coord>, r: int, x: int, so: char -> seq<Coord>)
    requires WiresOk(links, pending, r, x, so)
    ensures WiresOk(links, pending, r + 1, 0, so)
  {
    assert LinksBefore(links, r + 1, 0);
    assert PendingFresh(links, pending, r + 1, 0);
  }

  /** What character i of line r does to the tiles. */
  ghost predicate TilesEffect(lines: seq<string>, r: nat, i: nat, tiles: map<Coord, Tile>, tiles': map<Coord, Tile>)
    requires r < |lines| && i < |lines[r]|
  {
    var c := lines[r][i];
    if KindOf(c).Some? then tiles' == tiles[Cell(lines, r, i, 0) := Tile(KindOf(c).value, false)] else tiles' == tiles
  }

  /** What character i of line r does to the wires and the pending ends. */
  ghost predicate LinksEffect(lines: seq<string>, r: nat, i: nat,
                              links: map<Coord, Coord>, pending: map<char, Coord>,
                              links': map<Coord, Coord>, pending': map<char, Coord>)
    requires r < |lines| && i < |lines[r]|
  {
    var c, here := lines[r][i], Cell(lines, r, i, 0);
    if !IsLinkDigit(c) then links' == links && pending' == pending
    else if c in pending then links' == links[pending[c] := here][here := pending[c]] && pending' == pending - {c}
    else links' == links && pending' == pending[c := here]
  }

  /** The scan invariant moves one character on when the character has its effect. */
  lemma CharStep(lines: seq<string>, r: nat, i: nat, grid: Level, pending: map<char, Coord>, grid': Level, pending': map<char, Coord>)
    requires r < |lines| && i < |lines[r]|
    requires ScanInv(lines, r, i, grid, pending)
    requires TilesEffect(lines, r, i, grid.tiles, grid'.tiles)
    requires LinksEffect(lines, r, i, grid.links, pending, grid'.links, pending')
    requires CountsInv(lines, r, i + 1, grid')
    ensures ScanInv(lines, r, i + 1, grid', pending')
  {
    assert Line(lines, r) == lines[r];
    TilesStep(lines, r, i, grid.tiles, grid'.tiles);
    LinksStep(lines, r, i, grid.links, pending, grid'.links, pending');
  }

  /** The counters and the column stay within i8 while a character is read. */
  lemma CharBounds(lines: seq<string>, r: nat, i: nat, grid: Level)
    requires r < |lines| && i < |lines[r]|
    requires Columns(lines[r]) <= 127
    requires CountIn(lines, 'S') <= 127 && CountIn(lines, 'E') <= 127
    requires CountsInv(lines, r, i, grid)
    ensures Columns(lines[r][..i + 1]) <= 127
    ensures lines[r][i] == 'S' ==> grid.roverCount < 127
    ensures lines[r][i] == 'E' ==> grid.crystalCount < 127
  {
    var line := lines[r];
    assert Line(lines, r) == line;
    ColumnsStep(line, i);
    ColumnsPrefix(line, i + 1);
    CountPrefix(line, i + 1, 'S');
    CountPrefix(line, i + 1, 'E');
    CountInPrefix(lines, r + 1, 'S');
    CountInPrefix(lines, r + 1, 'E');
    assert lines[..r + 1][..r] == lines[..r];
    CountStep(line, i, 'S');
    CountStep(line, i, 'E');
  }

  /** One character of the level parser's inner loop: place a tile, open or close a wire, advance the column. */
  method ScanChar(lines: seq<string>, r: nat, i: nat, x: I8, grid: Level, pending: map<char, Coord>)
    returns (x': I8, grid': Level, pending': map<char, Coord>)
    requires r < |lines| <= 127 && i < |lines[r]|
    requires Columns(lines[r]) <= 127
    requires CountIn(lines, 'S') <= 127 && CountIn(lines, 'E') <= 127
    requires x == Columns(lines[r][..i])
    requires CountsInv(lines, r, i, grid)
    ensures x' == Columns(lines[r][..i + 1])
    ensures grid'.index == grid.index
    ensures CountsInv(lines, r, i + 1, grid')
    ensures TilesEffect(lines, r, i, grid.tiles, grid'.tiles)
    ensures LinksEffect(lines, r, i, grid.links, pending, grid'.links, pending')
  {
    var line := lines[r];
    assert Line(lines, r) == line;
    var c := line[i];
    var here := (x as int, -grid.height as int);
    assert here == Cell(lines, r, i, 0);
    ColumnsStep(line, i);
    CharBounds(lines, r, i, grid);
    CountsStep(lines, r, i, grid);
    grid', pending' := grid, pending;
    x' := x;
    if c == 'S' {
      grid' := grid'.(tiles := grid'.tiles[here := Tile(Start, false)], roverCount := grid'.roverCount + 1);
    } else if c == 'E' {
      grid' := grid'.(tiles := grid'.tiles[here := Tile(Finish, false)], crystalCount := grid'.crystalCount + 1);
    } else if c == 'P' {
      grid' := grid'.(tiles := grid'.tiles[here := Tile(Path, false)]);
    } else if '1' <= c <= '8' {
      if c in pending' {
        var start := pending'[c];
        pending' := pending' - {c};
        grid' := grid'.(links := grid'.links[start := here][here := start]);
      } else {
        pending' := pending'[c := here];
      }
      grid' := grid'.(tiles := grid'.tiles[here := Tile(Path, false)]);
    } else if c == 'D' {
      grid' := grid'.(tiles := grid'.tiles[here := Tile(PowerStation, false)]);
    } else if c == 'I' {
      grid' := grid'.(tiles := grid'.tiles[here := Tile(Relay, false)]);
    } else if c == 'C' {
      grid' := grid'.(tiles := grid'.tiles[here := Tile(Crater, false)]);
    } else if c == '\n' {
      // the parser steps the column back here, so that the increment below leaves it unchanged
      x' := x' - 1;
    }
    x' := x' + 1;
    grid' := grid'.(width := Max(x', grid'.width));
  }

  /** The level parser's inner loop: one line, character by character. */
  method ScanLine(lines: seq<string>, r: nat, grid: Level, pending: map<char, Coord>) returns (grid': Level, pending': map<char, Coord>)
    requires r < |lines| <= 127
    requires Columns(lines[r]) <= 127
    requires CountIn(lines, 'S') <= 127 && CountIn(lines, 'E') <= 127
    requires ScanInv(lines, r, 0, grid, pending)
    ensures ScanInv(lines, r, |lines[r]|, grid', pending')
    ensures grid'.index == grid.index
  {
    var line := lines[r];
    assert Line(lines, r) == line;
    grid', pending' := grid, pending;
    var x: I8 := 0;
    var i := 0;
    while i < |line|
      invariant 0 <= i <= |line|
      invariant x == Columns(line[..i])
      invariant grid'.index == grid.index
      invariant ScanInv(lines, r, i, grid', pending')
    {
      var grid'', pending'';
      x, grid'', pending'' := ScanChar(lines, r, i, x, grid', pending');
      CharStep(lines, r, i, grid', pending', grid'', pending'');
      grid', pending' := grid'', pending'';
      i := i + 1;
    }
  }

  // ---------------------------------------------------------------------------
  // The end of the scan, and the shift that puts the bottom row at y == 1

  /** When every line has been read, the scan invariant says what the raw maps hold. */
  lemma Finished(lines: seq<string>, grid: Level, pending: map<char, Coord>)
    requires ScanInv(lines, |lines|, 0, grid, pending)
    ensures grid.height == |lines| && grid.width == MaxColumns(lines)
    ensures grid.roverCount == CountIn(lines, 'S') && grid.crystalCount == CountIn(lines, 'E')
    ensures TilesMatch(lines, grid.tiles, 0)
    ensures Symmetric(grid.links)
    ensures forall d :: IsLinkDigit(d) ==> Paired(Occ(lines, d, 0), grid.links) && Unmatched(Occ(lines, d, 0), grid.links)
    ensures LinksFromPairs(lines, grid.links, 0)
  {
    var n := |lines|;
    assert lines[..n] == lines;
    assert Line(lines, n)[..0] == [];
    FinishedTiles(lines, grid.tiles);
    var so := SoFarOf(lines, n, 0);
    assert forall d :: so(d) == Occ(lines, d, 0);
    WiresDone(grid.links, pending, n, 0, so);
  }

  lemma FinishedTiles(lines: seq<string>, tiles: map<Coord, Tile>)
    requires TilesInv(lines, |lines|, 0, tiles)
    ensures TilesMatch(lines, tiles, 0)
  {
    var n := |lines|;
    forall R, I ensures Processed(lines, n, 0, R, I) <==> IsTileCell(lines, R, I) { }
  }

  /** What the wire invariant promises once there is nothing left to read. */
  lemma WiresDone(links: map<Coord, Coord>, pending: map<char, Coord>, r: int, x: int, so: char -> seq<Coord>)
    requires WiresOk(links, pending, r, x, so)
    ensures Symmetric(links)
    ensures forall d :: IsLinkDigit(d) ==> Paired(so(d), links) && Unmatched(so(d), links)
    ensures forall p :: p in links ==> exists d :: IsLinkDigit(d) && FromPair(so(d), p)
  {
    forall d | IsLinkDigit(d) ensures Unmatched(so(d), links) {
      assert PendingMatches(so(d), d, pending);
    }
  }

  function ShiftY(p: Coord, dy: int): Coord { (p.0, p.1 + dy) }

  function ShiftAll(o: seq<Coord>, dy: int): (o': seq<Coord>)
    ensures |o'| == |o| && forall j :: 0 <= j < |o| ==> o'[j] == ShiftY(o[j], dy)
  {
    seq(|o|, j requires 0 <= j < |o| => ShiftY(o[j], dy))
  }

  lemma RowOccShift(line: string, d: char, y: int, dy: int)
    ensures RowOcc(line, d, y + dy) == ShiftAll(RowOcc(line, d, y), dy)
  {
    if line != [] {
      var n := |line| - 1;
      RowOccShift(line[..n], d, y, dy);
    }
  }

  /** Moving the first line to y == top moves every occurrence up by top. */
  lemma {:induction false} OccShift(lines: seq<string>, d: char, top: int)
    ensures Occ(lines, d, top) == ShiftAll(Occ(lines, d, 0), top)
  {
    if lines != [] {
      var n := |lines| - 1;
      OccShift(lines[..n], d, top);
      RowOccShift(lines[n], d, -n, top);
    }
  }

  /** `tiles'` is `tiles` with every key moved up by dy. */
  ghost predicate ShiftedTiles(tiles: map<Coord, Tile>, tiles': map<Coord, Tile>, dy: int)
  {
    TilesMoved(tiles, tiles', dy) && TilesMovedFrom(tiles, tiles', dy)
  }

  ghost predicate TilesMoved(tiles: map<Coord, Tile>, tiles': map<Coord, Tile>, dy: int)
  {
    forall p :: p in tiles ==> ShiftY(p, dy) in tiles' && tiles'[ShiftY(p, dy)] == tiles[p]
  }

  ghost predicate TilesMovedFrom(tiles: map<Coord, Tile>, tiles': map<Coord, Tile>, dy: int)
  {
    forall q :: q in tiles' ==> exists p :: p in tiles && ShiftY(p, dy) == q
  }

  /** `links'` is `links` with every endpoint moved up by dy. */
  ghost predicate ShiftedLinks(links: map<Coord, Coord>, links': map<Coord, Coord>, dy: int)
  {
    LinksMoved(links, links', dy) && LinksMovedFrom(links, links', dy)
  }

  ghost predicate LinksMoved(links: map<Coord, Coord>, links': map<Coord, Coord>, dy: int)
  {
    forall p :: p in links ==> ShiftY(p, dy) in links' && links'[ShiftY(p, dy)] == ShiftY(links[p], dy)
  }

  ghost predicate LinksMovedFrom(links: map<Coord, Coord>, links': map<Coord, Coord>, dy: int)
  {
    forall q :: q in links' ==> exists p :: p in links && ShiftY(p, dy) == q
  }

  /** The parser's first copy loop: every tile moved up by dy. */
  method ShiftTiles(tiles: map<Coord, Tile>, dy: int) returns (tiles': map<Coord, Tile>)
    ensures ShiftedTiles(tiles, tiles', dy)
  {
    tiles' := map[];
    var rest := tiles.Keys;
    while rest != {}
      invariant rest <= tiles.Keys
      invariant forall p :: p in tiles && p !in rest ==> ShiftY(p, dy) in tiles' && tiles'[ShiftY(p, dy)] == tiles[p]
      invariant forall q :: q in tiles' ==> exists p :: p in tiles && p !in rest && ShiftY(p, dy) == q
      decreases |rest|
    {
      var p :| p in rest;
      tiles' := tiles'[ShiftY(p, dy) := tiles[p]];
      rest := rest - {p};
    }
  }

  /** The parser's second copy loop: both ends of every wire moved up by dy. */
  method ShiftLinks(links: map<Coord, Coord>, dy: int) returns (links': map<Coord, Coord>)
    ensures ShiftedLinks(links, links', dy)
  {
    links' := map[];
    var rest := links.Keys;
    while rest != {}
      invariant rest <= links.Keys
      invariant forall p :: p in links && p !in rest ==> ShiftY(p, dy) in links' && links'[ShiftY(p, dy)] == ShiftY(links[p], dy)
      invariant forall q :: q in links' ==> exists p :: p in links && p !in rest && ShiftY(p, dy) == q
      decreases |rest|
    {
      var p :| p in rest;
      links' := links'[ShiftY(p, dy) := ShiftY(links[p], dy)];
      rest := rest - {p};
    }
  }

  lemma TilesMatchShift(lines: seq<string>, tiles: map<Coord, Tile>, tiles': map<Coord, Tile>, top: int)
    requires TilesMatch(lines, tiles, 0) && ShiftedTiles(tiles, tiles', top)
    ensures TilesMatch(lines, tiles', top)
  {
    TilesShiftForward(lines, tiles, tiles', top);
    TilesShiftBack(lines, tiles, tiles', top);
  }

  lemma TilesShiftForward(lines: seq<string>, tiles: map<Coord, Tile>, tiles': map<Coord, Tile>, top: int)
    requires CellsPlaced(lines, tiles, 0) && TilesMoved(tiles, tiles', top)
    ensures CellsPlaced(lines, tiles', top)
  {
    forall r, i | IsTileCell(lines, r, i)
      ensures Cell(lines, r, i, top) in tiles' && tiles'[Cell(lines, r, i, top)] == Tile(KindOf(lines[r][i]).value, false)
    {
      CellShift(lines, r, i, top);
    }
  }

  lemma TilesShiftBack(lines: seq<string>, tiles: map<Coord, Tile>, tiles': map<Coord, Tile>, top: int)
    requires TilesFromCells(lines, tiles, 0) && TilesMovedFrom(tiles, tiles', top)
    ensures TilesFromCells(lines, tiles', top)
  {
    forall q | q in tiles' ensures exists r, i :: IsTileCell(lines, r, i) && Cell(lines, r, i, top) == q {
      var p :| p in tiles && ShiftY(p, top) == q;
      var r, i :| IsTileCell(lines, r, i) && Cell(lines, r, i, 0) == p;
      CellShift(lines, r, i, top);
    }
  }

  lemma CellShift(lines: seq<string>, r: nat, i: nat, top: int)
    requires r < |lines| && i <= |lines[r]|
    ensures Cell(lines, r, i, top) == ShiftY(Cell(lines, r, i, 0), top)
  {
  }

  lemma SymmetricShift(links: map<Coord, Coord>, links': map<Coord, Coord>, dy: int)
    requires Symmetric(links) && ShiftedLinks(links, links', dy)
    ensures Symmetric(links')
  {
    forall q | q in links' ensures links'[q] in links' && links'[links'[q]] == q {
      var p := ShiftY(q, -dy);
      assert ShiftY(p, dy) == q;
      assert links'[q] == ShiftY(links[p], dy);
    }
  }

  lemma PairedShift(o: seq<Coord>, links: map<Coord, Coord>, links': map<Coord, Coord>, dy: int)
    requires Paired(o, links) && Unmatched(o, links) && ShiftedLinks(links, links', dy)
    ensures Paired(ShiftAll(o, dy), links') && Unmatched(ShiftAll(o, dy), links')
  {
  }

  lemma LinksFromPairsShift(lines: seq<string>, links: map<Coord, Coord>, links': map<Coord, Coord>, top: int)
    requires LinksFromPairs(lines, links, 0) && ShiftedLinks(links, links', top)
    ensures LinksFromPairs(lines, links', top)
  {
    forall q | q in links' ensures exists d :: IsLinkDigit(d) && FromPair(Occ(lines, d, top), q) {
      var p :| p in links && ShiftY(p, top) == q;
      var d :| IsLinkDigit(d) && FromPair(Occ(lines, d, 0), p);
      var o := Occ(lines, d, 0);
      var j :| 0 <= j < |o| - |o| % 2 && o[j] == p;
      OccShift(lines, d, top);
      assert Occ(lines, d, top)[j] == q;
    }
  }

  // ---------------------------------------------------------------------------
  // Loading

  /**
   * Parses the lines of a level file. The bounds in the preconditions are the
   * ones past which the parser's i8 counters overflow.
   */
  method Load(lines: seq<string>, index: nat) returns (level: Level)
    requires |lines| <= 127
    requires forall r :: 0 <= r < |lines| ==> Columns(lines[r]) <= 127
    requires CountIn(lines, 'S') <= 127 && CountIn(lines, 'E') <= 127
    ensures level.index == index
    ensures level.height == |lines| && level.width == MaxColumns(lines)
    ensures level.roverCount == CountIn(lines, 'S') && level.crystalCount == CountIn(lines, 'E')
    ensures TilesMatch(lines, level.tiles, |lines|)
    ensures Symmetric(level.links)
    ensures forall d :: IsLinkDigit(d) ==>
      Paired(Occ(lines, d, |lines|), level.links) && Unmatched(Occ(lines, d, |lines|), level.links)
    ensures LinksFromPairs(lines, level.links, |lines|)
  {
    var grid := Level(map[], 0, 0, index, 0, 0, map[]);
    var pending: map<char, Coord> := map[];
    ScanStart(lines, grid);
    var r := 0;
    while r < |lines|
      invariant r <= |lines|
      invariant grid.index == index
      invariant ScanInv(lines, r, 0, grid, pending)
    {
      grid, pending := ScanLine(lines, r, grid, pending);
      NextRow(lines, r, grid, pending);
      grid := grid.(height := grid.height + 1);
      r := r + 1;
    }
    var h := grid.height;
    var tiles := ShiftTiles(grid.tiles, h);
    var links := ShiftLinks(grid.links, h);
    level := Level(tiles, grid.width, h, grid.index, grid.roverCount, grid.crystalCount, links);
    ShiftedLoaded(lines, grid, pending, level);
  }

  /** Before the first line the maps are empty and the counters zero. */
  lemma ScanStart(lines: seq<string>, grid: Level)
    requires grid.tiles == map[] && grid.links == map[]
    requires grid.width == 0 && grid.height == 0 && grid.roverCount == 0 && grid.crystalCount == 0
    ensures ScanInv(lines, 0, 0, grid, map[])
  {
    assert Line(lines, 0)[..0] == [];
  }

  /** The last step of the load: once every line has been read, shifting the raw maps gives what the load promises. */
  lemma ShiftedLoaded(lines: seq<string>, grid: Level, pending: map<char, Coord>, level: Level)
    requires ScanInv(lines, |lines|, 0, grid, pending)
    requires ShiftedTiles(grid.tiles, level.tiles, grid.height) && ShiftedLinks(grid.links, level.links, grid.height)
    requires level.width == grid.width && level.height == grid.height
    requires level.roverCount == grid.roverCount && level.crystalCount == grid.crystalCount
    ensures level.height == |lines| && level.width == MaxColumns(lines)
    ensures level.roverCount == CountIn(lines, 'S') && level.crystalCount == CountIn(lines, 'E')
    ensures TilesMatch(lines, level.tiles, |lines|)
    ensures Symmetric(level.links)
    ensures forall d :: IsLinkDigit(d) ==>
      Paired(Occ(lines, d, |lines|), level.links) && Unmatched(Occ(lines, d, |lines|), level.links)
    ensures LinksFromPairs(lines, level.links, |lines|)
  {
    Finished(lines, grid, pending);
    var h := grid.height;
    TilesMatchShift(lines, grid.tiles, level.tiles, h);
    SymmetricShift(grid.links, level.links, h);
    forall d | IsLinkDigit(d)
      ensures Paired(Occ(lines, d, h), level.links) && Unmatched(Occ(lines, d, h), level.links)
    {
      OccShift(lines, d, h);
      PairedShift(Occ(lines, d, 0), grid.links, level.links, h);
    }
    LinksFromPairsShift(lines, grid.links, level.links, h);
  }

  // ---------------------------------------------------------------------------
  // Queries on a loaded level

  /** A rover position lies on the level when the level has a tile there. */
  predicate IsPosInLevel(level: Level, pos: Coord)
  {
    pos in level.tiles
  }

  /** On a loaded level, the positions on the level are exactly the cells of tile characters. */
  lemma PosInLevelIffTileCell(lines: seq<string>, level: Level, pos: Coord)
    requires TilesMatch(lines, level.tiles, |lines|)
    ensures IsPosInLevel(level, pos) <==> exists r, i :: IsTileCell(lines, r, i) && Cell(lines, r, i, |lines|) == pos
  {
    if exists r, i :: IsTileCell(lines, r, i) && Cell(lines, r, i, |lines|) == pos {
      var r, i :| IsTileCell(lines, r, i) && Cell(lines, r, i, |lines|) == pos;
      assert CellsPlaced(lines, level.tiles, |lines|);
    }
  }

  lemma {:induction false} MaxColumnsBound(lines: seq<string>, r: nat)
    requires r < |lines|
    ensures Columns(lines[r]) <= MaxColumns(lines)
  {
    var n := |lines| - 1;
    if r < n {
      MaxColumnsBound(lines[..n], r);
    }
  }

  /** The text cell a tile of a loaded level comes from. */
  lemma TileCellOf(lines: seq<string>, tiles: map<Coord, Tile>, top: int, p: Coord) returns (r: nat, i: nat)
    requires TilesMatch(lines, tiles, top) && p in tiles
    ensures IsTileCell(lines, r, i) && Cell(lines, r, i, top) == p
    ensures tiles[p] == Tile(KindOf(lines[r][i]).value, false)
  {
    assert TilesFromCells(lines, tiles, top);
    r, i :| IsTileCell(lines, r, i) && Cell(lines, r, i, top) == p;
    assert CellsPlaced(lines, tiles, top);
  }

  /** A cell lies inside the level bounds. */
  lemma CellInBounds(lines: seq<string>, r: nat, i: nat)
    requires IsTileCell(lines, r, i)
    ensures 0 <= Cell(lines, r, i, |lines|).0 < MaxColumns(lines)
    ensures 1 <= Cell(lines, r, i, |lines|).1 <= |lines|
  {
    ColumnsStep(lines[r], i);
    ColumnsPrefix(lines[r], i + 1);
    MaxColumnsBound(lines, r);
  }

  /** One tile of a loaded level lies inside the level bounds and is not in shadow. */
  lemma TileInBounds(lines: seq<string>, level: Level, p: Coord)
    requires TilesMatch(lines, level.tiles, |lines|)
    requires level.width == MaxColumns(lines) && level.height == |lines|
    requires p in level.tiles
    ensures 0 <= p.0 < level.width && 1 <= p.1 <= level.height && !level.tiles[p].shadow
  {
    var r, i := TileCellOf(lines, level.tiles, |lines|, p);
    CellInBounds(lines, r, i);
  }

  /** A loaded level's tiles have 0 <= x < width and 1 <= y <= height, and none is in shadow. */
  lemma TilesInBounds(lines: seq<string>, level: Level)
    requires TilesMatch(lines, level.tiles, |lines|)
    requires level.width == MaxColumns(lines) && level.height == |lines|
    ensures forall p :: p in level.tiles ==>
      0 <= p.0 < level.width && 1 <= p.1 <= level.height && !level.tiles[p].shadow
  {
    forall p | p in level.tiles ensures 0 <= p.0 < level.width && 1 <= p.1 <= level.height && !level.tiles[p].shadow {
      TileInBounds(lines, level, p);
    }
  }
}
