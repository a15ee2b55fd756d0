/** The universe: a one- or two-dimensional grid of cells, its construction, its
    text rendering and point mutation (`transform`). */
module Universes {
  import opened Outcomes
  import opened NdArrays
  import opened Rules

  datatype Cells = Line(cells: seq<int>) | Plane(rows: seq<seq<int>>)

  /** `n` is the extent along every axis.  A negative `Size` builds an empty grid
      and an empty scan range, exactly like 0, so it is stored as 0. */
  datatype Universe = Universe(n: nat, grid: Cells)

  function Dimensions(u: Universe): nat
  {
    if u.grid.Line? then 1 else 2
  }

  /** The grid has extent `n` along each of its axes. */
  predicate Valid(u: Universe)
  {
    match u.grid
    case Line(cells) => |cells| == u.n
    case Plane(rows) => |rows| == u.n && forall i :: 0 <= i < |rows| ==> |rows[i]| == u.n
  }

  /** Every cell is dead (0) or alive (1). */
  predicate BinaryCells(u: Universe)
  {
    match u.grid
    case Line(cells) => Binary(cells)
    case Plane(rows) => forall i :: 0 <= i < |rows| ==> Binary(rows[i])
  }

  /** `p` addresses a cell: one coordinate per dimension, each inside the grid. */
  predicate InRange(u: Universe, p: seq<int>)
  {
    |p| == Dimensions(u) && forall k :: 0 <= k < |p| ==> 0 <= p[k] < u.n
  }

  function Cell(u: Universe, p: seq<int>): int
    requires Valid(u) && InRange(u, p)
  {
    match u.grid
    case Line(cells) => cells[p[0]]
    case Plane(rows) => rows[p[0]][p[1]]
  }

  /** Two valid universes of the same shape that agree on every cell are equal. */
  lemma Extensionality(u: Universe, v: Universe)
    requires Valid(u) && Valid(v) && u.n == v.n && Dimensions(u) == Dimensions(v)
    requires forall p :: InRange(u, p) ==> Cell(u, p) == Cell(v, p)
    ensures u == v
  {
    match u.grid
    case Line(cells) =>
      forall i | 0 <= i < u.n
        ensures cells[i] == v.grid.cells[i]
      {
        assert InRange(u, [i]);
      }
    case Plane(rows) =>
      forall i | 0 <= i < u.n
        ensures rows[i] == v.grid.rows[i]
      {
        forall j | 0 <= j < u.n
          ensures rows[i][j] == v.grid.rows[i][j]
        {
          assert InRange(u, [i, j]);
        }
      }
  }

  function Zeros(k: nat): (z: seq<int>)
    ensures |z| == k && forall i :: 0 <= i < k ==> z[i] == 0
  {
    seq(k, _ => 0)
  }

  // ---------------------------------------------------------------- construction

  /** The dimension check: only one and two dimensions are supported. */
  function CheckDimensions(dimensions: int): Option<Error>
  {
    if dimensions <= 0 then Some(NonPositiveDimensions)
    else if dimensions > 2 then Some(TooManyDimensions)
    else None
  }

  /** The check on an initial array.  Its squareness test compares the shape tuple
      with an int, which is never equal, so an array of the right rank is always
      reported as not square. */
  function CheckInitial(initial: NdArray, dimensions: int): Error
  {
    if Rank(initial) != dimensions then InitialRankMismatch else InitialNotSquare
  }

  /** A universe of the given dimensions built from exactly one of a size and an
      initial array.  A sized universe starts all dead; the initial-array path
      never yields a universe. */
  function NewUniverse(dimensions: int, size: Option<Size>, initial: Option<NdArray>): (r: Result<Universe>)
    ensures r.Ok? <==> 1 <= dimensions <= 2 && size.Some? && initial.None? && !IsInfinite(size.value)
    ensures dimensions <= 0 ==> r == Err(NonPositiveDimensions)
    ensures dimensions > 2 ==> r == Err(TooManyDimensions)
    ensures 1 <= dimensions <= 2 && size.Some? == initial.Some? ==> r == Err(SizeXorInitial)
    ensures 1 <= dimensions <= 2 && size.Some? && initial.None? && IsInfinite(size.value) ==>
              r == Err(InfiniteUniverse)
    ensures 1 <= dimensions <= 2 && size.None? && initial.Some? ==>
              r.Err? && (r.error == InitialRankMismatch || r.error == InitialNotSquare)
    ensures r.Ok? ==> Valid(r.value) && Dimensions(r.value) == dimensions
    ensures r.Ok? ==> r.value.n == (if size.value.size.value < 0 then 0 else size.value.size.value)
    ensures r.Ok? ==> forall p :: InRange(r.value, p) ==> Cell(r.value, p) == 0
  {
    match CheckDimensions(dimensions)
    case Some(e) => Err(e)
    case None =>
      if size.None? == initial.None? then Err(SizeXorInitial)
      else if size.Some? then
        if IsInfinite(size.value) then Err(InfiniteUniverse)
        else
          var n: nat := if size.value.size.value < 0 then 0 else size.value.size.value;
          if dimensions == 1 then Ok(Universe(n, Line(Zeros(n))))
          else Ok(Universe(n, Plane(seq(n, _ => Zeros(n)))))
      else Err(CheckInitial(initial.value, dimensions))
  }

  // ---------------------------------------------------------------- rendering

  function DigitChar(d: int): char
    requires 0 <= d <= 9
  {
    (48 + d) as char
  }

  predicate IsDigit(c: char)
  {
    '0' <= c <= '9'
  }

  /** Decimal digits of a natural number, most significant first. */
  function NatToString(x: nat): (s: string)
    ensures |s| > 0
    ensures forall k :: 0 <= k < |s| ==> IsDigit(s[k])
    decreases x
  {
    if x < 10 then [DigitChar(x)] else NatToString(x / 10) + [DigitChar(x % 10)]
  }

  /** Python's `str` of an int. */
  function IntToString(x: int): (s: string)
    ensures |s| > 0 && '\n' !in s
    ensures x == 0 ==> s == "0"
    ensures x == 1 ==> s == "1"
  {
    if x < 0 then "-" + NatToString(-x) else NatToString(x)
  }

  function ParseNat(s: string): nat
  {
    if |s| == 0 then 0
    else
      var d := s[|s| - 1] as int - 48;
      ParseNat(s[..|s| - 1]) * 10 + (if 0 <= d then d else 0)
  }

  function ParseInt(s: string): int
  {
    if |s| > 0 && s[0] == '-' then -(ParseNat(s[1..]) as int) else ParseNat(s)
  }

  lemma {:induction false} ParseNatToString(x: nat)
    ensures ParseNat(NatToString(x)) == x
    decreases x
  {
    var s := NatToString(x);
    if x >= 10 {
      ParseNatToString(x / 10);
      assert s[..|s| - 1] == NatToString(x / 10);
    }
  }

  /** Rendering an int and reading it back gives the int. */
  lemma IntToStringRoundTrip(x: int)
    ensures ParseInt(IntToString(x)) == x
  {
    if x < 0 {
      ParseNatToString(-x);
      assert IntToString(x)[1..] == NatToString(-x);
    } else {
      ParseNatToString(x);
      assert IsDigit(NatToString(x)[0]);
    }
  }

  /** `''.join(map(str, cells))`. */
  function RowText(cells: seq<int>): string
  {
    if |cells| == 0 then "" else RowText(cells[..|cells| - 1]) + IntToString(cells[|cells| - 1])
  }

  /** `'\n'.join(lines)`. */
  function JoinLines(lines: seq<string>): string
  {
    if |lines| == 0 then ""
    else if |lines| == 1 then lines[0]
    else lines[0] + "\n" + JoinLines(lines[1..])
  }

  /** `s.split('\n')`. */
  function SplitLines(s: string): (lines: seq<string>)
    ensures |lines| > 0
  {
    if |s| == 0 then [""]
    else
      var rest := SplitLines(s[1..]);
      if s[0] == '\n' then [""] + rest else [[s[0]] + rest[0]] + rest[1..]
  }

  /** `repr` of a universe: the row of digits, or the rows joined by newlines. */
  function Repr(u: Universe): string
  {
    match u.grid
    case Line(cells) => RowText(cells)
    case Plane(rows) => JoinLines(seq(|rows|, i requires 0 <= i < |rows| => RowText(rows[i])))
  }

  /** The cell a rendered digit stands for. */
  function ParseRow(s: string): seq<int>
  {
    seq(|s|, k requires 0 <= k < |s| => s[k] as int - 48)
  }

  /** Reads a rendering back into cells. */
  function ParseGrid(s: string, dimensions: nat): Cells
  {
    if dimensions == 1 then Line(ParseRow(s))
    else if s == "" then Plane([])
    else
      var lines := SplitLines(s);
      Plane(seq(|lines|, i requires 0 <= i < |lines| => ParseRow(lines[i])))
  }

  /** A row of dead and alive cells renders as one digit per cell. */
  lemma {:induction false} BinaryRowText(cells: seq<int>)
    requires Binary(cells)
    ensures |RowText(cells)| == |cells|
    ensures forall k :: 0 <= k < |cells| ==> RowText(cells)[k] == DigitChar(cells[k])
    decreases |cells|
  {
    if |cells| > 0 {
      var init := cells[..|cells| - 1];
      assert Binary(init) by {
        forall k | 0 <= k < |init| ensures init[k] == 0 || init[k] == 1 {
          assert init[k] == cells[k];
        }
      }
      BinaryRowText(init);
    }
  }

  lemma {:induction false} SplitWithoutNewline(s: string)
    requires '\n' !in s
    ensures SplitLines(s) == [s]
    decreases |s|
  {
    if |s| > 0 {
      assert '\n' !in s[1..];
      SplitWithoutNewline(s[1..]);
      assert [s[0]] + s[1..] == s;
    }
  }

  lemma {:induction false} SplitAfterLine(a: string, b: string)
    requires '\n' !in a
    ensures SplitLines(a + "\n" + b) == [a] + SplitLines(b)
    decreases |a|
  {
    if |a| == 0 {
      assert a + "\n" + b == "\n" + b;
      assert ("\n" + b)[1..] == b;
    } else {
      assert (a + "\n" + b)[1..] == a[1..] + "\n" + b;
      assert '\n' !in a[1..];
      SplitAfterLine(a[1..], b);
      assert [a[0]] + a[1..] == a;
    }
  }

  /** Splitting newline-joined lines gives the lines back. */
  lemma {:induction false} SplitJoinLines(lines: seq<string>)
    requires |lines| > 0
    requires forall i :: 0 <= i < |lines| ==> '\n' !in lines[i]
    ensures SplitLines(JoinLines(lines)) == lines
    decreases |lines|
  {
    if |lines| == 1 {
      SplitWithoutNewline(lines[0]);
    } else {
      SplitJoinLines(lines[1..]);
      SplitAfterLine(lines[0], JoinLines(lines[1..]));
      assert [lines[0]] + lines[1..] == lines;
    }
  }

  lemma ParseBinaryRow(cells: seq<int>)
    requires Binary(cells)
    ensures ParseRow(RowText(cells)) == cells
    ensures '\n' !in RowText(cells)
  {
    BinaryRowText(cells);
    var t := RowText(cells);
    forall k | 0 <= k < |t| ensures t[k] != '\n' {
      assert t[k] == DigitChar(cells[k]);
    }
  }

  /** The rendering of a universe of dead and alive cells determines it: reading it
      back yields the same grid. */
  lemma ReprRoundTrip(u: Universe)
    requires Valid(u) && BinaryCells(u)
    ensures ParseGrid(Repr(u), Dimensions(u)) == u.grid
  {
    match u.grid
    case Line(cells) =>
      ParseBinaryRow(cells);
    case Plane(rows) =>
      var lines := seq(|rows|, i requires 0 <= i < |rows| => RowText(rows[i]));
      forall i | 0 <= i < |rows| ensures '\n' !in lines[i] && ParseRow(lines[i]) == rows[i] {
        ParseBinaryRow(rows[i]);
      }
      if |rows| > 0 {
        SplitJoinLines(lines);
        BinaryRowText(rows[0]);
        if |rows| == 1 {
          assert Repr(u) == lines[0];
        } else {
          assert Repr(u) == lines[0] + "\n" + JoinLines(lines[1..]);
        }
        assert |Repr(u)| > 0;
      }
  }

  /** A freshly sized universe renders as `n` zeros (one dimension) or as `n`
      newline-separated lines of `n` zeros (two dimensions). */
  lemma SizedUniverseRepr(dimensions: int, n: nat)
    requires 1 <= dimensions <= 2
    ensures NewUniverse(dimensions, Some(Size(Some(n))), None).Ok?
    ensures var u := NewUniverse(dimensions, Some(Size(Some(n))), None).value;
      dimensions == 1 ==> Repr(u) == seq(n, _ => '0')
    ensures var u := NewUniverse(dimensions, Some(Size(Some(n))), None).value;
      dimensions == 2 ==> Repr(u) == JoinLines(seq(n, _ => seq(n, _ => '0')))
    ensures var u := NewUniverse(dimensions, Some(Size(Some(n))), None).value;
      dimensions == 2 && n == 0 ==> Repr(u) == ""
  {
    var u := NewUniverse(dimensions, Some(Size(Some(n))), None).value;
    var zeros := seq(n, _ => '0');
    assert Binary(Zeros(n));
    BinaryRowText(Zeros(n));
    assert RowText(Zeros(n)) == zeros;
    if dimensions == 2 {
      var rows := u.grid.rows;
      var lines := seq(|rows|, i requires 0 <= i < |rows| => RowText(rows[i]));
      forall i | 0 <= i < n ensures lines[i] == zeros {
        assert rows[i] == Zeros(n);
      }
      assert lines == seq(n, _ => zeros);
    }
  }

  // ---------------------------------------------------------------- transform

  /** A location as the caller writes it: a bare int or a tuple. */
  datatype Location = Index(index: int) | Coords(coords: seq<int>)

  /** One location, or a collection of them processed in order. */
  datatype Locations = One(loc: Location) | Many(locs: seq<Location>)

  function Coordinates(loc: Location): seq<int>
  {
    match loc
    case Index(i) => [i]
    case Coords(cs) => cs
  }

  /** The source leaves an out-of-range index to numpy (wrap-around or an
      IndexError); the model asks that every location the loop reaches and
      writes, that is every location before the first one of the wrong arity, be
      inside the grid. */
  predicate TargetsInRange(u: Universe, locs: seq<Location>)
  {
    forall k :: 0 <= k < FirstBad(u, locs) ==> InRange(u, Coordinates(locs[k]))
  }

  function Targets(locs: seq<Location>): set<seq<int>>
  {
    set k | 0 <= k < |locs| :: Coordinates(locs[k])
  }

  lemma TargetsOfConcat(a: seq<Location>, b: seq<Location>)
    ensures Targets(a + b) == Targets(a) + Targets(b)
  {
    forall p | p in Targets(a + b) ensures p in Targets(a) + Targets(b) {
      var m :| 0 <= m < |a + b| && p == Coordinates((a + b)[m]);
      if m >= |a| {
        assert p == Coordinates(b[m - |a|]);
      }
    }
    forall p | p in Targets(a) + Targets(b) ensures p in Targets(a + b) {
      if p in Targets(a) {
        var m :| 0 <= m < |a| && p == Coordinates(a[m]);
        assert p == Coordinates((a + b)[m]);
      } else {
        var m :| 0 <= m < |b| && p == Coordinates(b[m]);
        assert p == Coordinates((a + b)[|a| + m]);
      }
    }
  }

  /** Sets the one cell `p` to `state`. */
  function SetCell(u: Universe, p: seq<int>, state: int): (v: Universe)
    requires Valid(u) && InRange(u, p)
    ensures Valid(v) && v.n == u.n && Dimensions(v) == Dimensions(u)
    ensures forall q :: InRange(u, q) ==> Cell(v, q) == if q == p then state else Cell(u, q)
  {
    match u.grid
    case Line(cells) =>
      var v := Universe(u.n, Line(cells[p[0] := state]));
      assert forall q :: InRange(u, q) ==> (q == p <==> q[0] == p[0]);
      v
    case Plane(rows) =>
      var v := Universe(u.n, Plane(rows[p[0] := rows[p[0]][p[1] := state]]));
      assert forall q :: InRange(u, q) ==> (q == p <==> q[0] == p[0] && q[1] == p[1]);
      v
  }

  /** `transform` at one location. */
  function TransformAt(u: Universe, loc: Location, state: int): (r: Result<Universe>)
    requires Valid(u) && TargetsInRange(u, [loc])
    ensures r.Ok? <==> |Coordinates(loc)| == Dimensions(u)
    ensures r.Err? ==> r.error == LocationRankMismatch
    ensures r.Ok? ==> Valid(r.value) && r.value.n == u.n && Dimensions(r.value) == Dimensions(u)
    ensures r.Ok? ==> forall q :: InRange(u, q) ==>
              Cell(r.value, q) == if q == Coordinates(loc) then state else Cell(u, q)
  {
    var p := Coordinates(loc);
    if |p| != Dimensions(u) then Err(LocationRankMismatch)
    else
      assert InRange(u, Coordinates([loc][0]));
      Ok(SetCell(u, p, state))
  }

  /** The index of the first location whose arity differs from the dimensions,
      or the number of locations if there is none. */
  function FirstBad(u: Universe, locs: seq<Location>): (k: nat)
    ensures k <= |locs|
    ensures forall m :: 0 <= m < k ==> |Coordinates(locs[m])| == Dimensions(u)
    ensures k < |locs| ==> |Coordinates(locs[k])| != Dimensions(u)
  {
    if |locs| == 0 then 0
    else if |Coordinates(locs[0])| != Dimensions(u) then 0
    else 1 + FirstBad(u, locs[1..])
  }

  /** The loop over a collection of locations: each is set in turn, and a bad
      location stops the loop with the earlier ones already set. */
  function TransformAll(u: Universe, locs: seq<Location>, state: int): (o: Outcome<Universe>)
    requires Valid(u) && TargetsInRange(u, locs)
    ensures Valid(o.after) && o.after.n == u.n && Dimensions(o.after) == Dimensions(u)
    ensures o.raised.None? <==> FirstBad(u, locs) == |locs|
    ensures o.raised.Some? ==> o.raised.value == LocationRankMismatch
    ensures forall p :: InRange(u, p) ==>
              Cell(o.after, p) == if p in Targets(locs[..FirstBad(u, locs)]) then state else Cell(u, p)
    decreases |locs|
  {
    if |locs| == 0 then Outcome(u, None)
    else
      InRangeHead(u, locs);
      match TransformAt(u, locs[0], state)
      case Err(e) => Outcome(u, Some(e))
      case Ok(v) =>
        InRangeTail(u, v, locs);
        var o := TransformAll(v, locs[1..], state);
        TransformAllCons(u, v, locs, state, o);
        o
  }

  lemma InRangeHead(u: Universe, locs: seq<Location>)
    requires TargetsInRange(u, locs) && |locs| > 0
    ensures TargetsInRange(u, [locs[0]])
  {
    assert [locs[0]][0] == locs[0];
    assert [locs[0]][1..] == [];
  }

  lemma InRangeTail(u: Universe, v: Universe, locs: seq<Location>)
    requires TargetsInRange(u, locs) && |locs| > 0 && |Coordinates(locs[0])| == Dimensions(u)
    requires v.n == u.n && Dimensions(v) == Dimensions(u)
    ensures TargetsInRange(v, locs[1..])
  {
    FirstBadDependsOnDimensions(u, v, locs[1..]);
    forall k | 0 <= k < FirstBad(v, locs[1..])
      ensures InRange(v, Coordinates(locs[1..][k]))
    {
      assert locs[1..][k] == locs[k + 1];
    }
  }

  /** Setting the first location and then looping over the rest sets exactly the
      locations before the first bad one. */
  lemma TransformAllCons(u: Universe, v: Universe, locs: seq<Location>, state: int, o: Outcome<Universe>)
    requires Valid(u) && |locs| > 0 && |Coordinates(locs[0])| == Dimensions(u)
    requires Valid(v) && v.n == u.n && Dimensions(v) == Dimensions(u)
    requires forall q :: InRange(u, q) ==> Cell(v, q) == if q == Coordinates(locs[0]) then state else Cell(u, q)
    requires Valid(o.after) && o.after.n == v.n && Dimensions(o.after) == Dimensions(v)
    requires o.raised.None? <==> FirstBad(v, locs[1..]) == |locs[1..]|
    requires forall p :: InRange(v, p) ==>
               Cell(o.after, p) == if p in Targets(locs[1..][..FirstBad(v, locs[1..])]) then state else Cell(v, p)
    ensures o.raised.None? <==> FirstBad(u, locs) == |locs|
    ensures forall p :: InRange(u, p) ==>
              Cell(o.after, p) == if p in Targets(locs[..FirstBad(u, locs)]) then state else Cell(u, p)
  {
    FirstBadDependsOnDimensions(u, v, locs[1..]);
    var k := FirstBad(v, locs[1..]);
    assert FirstBad(u, locs) == 1 + k;
    var done, rest := Targets(locs[..1 + k]), Targets(locs[1..][..k]);
    TargetsCons(locs, k);
    forall p | InRange(u, p)
      ensures Cell(o.after, p) == if p in done then state else Cell(u, p)
    {
      assert InRange(v, p);
    }
  }

  /** The locations of a prefix are its first location and those of the rest. */
  lemma TargetsCons(locs: seq<Location>, k: nat)
    requires k < |locs|
    ensures Targets(locs[..1 + k]) == {Coordinates(locs[0])} + Targets(locs[1..][..k])
  {
    assert locs[..1 + k] == [locs[0]] + locs[1..][..k];
    TargetsOfConcat([locs[0]], locs[1..][..k]);
    assert Targets([locs[0]]) == {Coordinates(locs[0])};
  }

  /** `transform(location, state)`. */
  function Transform(u: Universe, locations: Locations, state: int): (o: Outcome<Universe>)
    requires Valid(u)
    requires locations.One? ==> TargetsInRange(u, [locations.loc])
    requires locations.Many? ==> TargetsInRange(u, locations.locs)
    ensures Valid(o.after) && o.after.n == u.n && Dimensions(o.after) == Dimensions(u)
    ensures locations.One? ==> (o.raised.None? <==> |Coordinates(locations.loc)| == Dimensions(u))
    ensures locations.One? ==> forall p :: InRange(u, p) ==>
              Cell(o.after, p) == if o.raised.None? && p == Coordinates(locations.loc) then state else Cell(u, p)
    ensures locations.Many? ==> (o.raised.None? <==> FirstBad(u, locations.locs) == |locations.locs|)
    ensures locations.Many? ==> forall p :: InRange(u, p) ==>
              Cell(o.after, p) == if p in Targets(locations.locs[..FirstBad(u, locations.locs)]) then state else Cell(u, p)
    ensures o.raised.Some? ==> o.raised.value == LocationRankMismatch
  {
    match locations
    case One(loc) =>
      (match TransformAt(u, loc, state)
       case Ok(v) => Outcome(v, None)
       case Err(e) => Outcome(u, Some(e)))
    case Many(locs) => TransformAll(u, locs, state)
  }

  /** Transforming twice with the same locations and state is the same as once,
      including which error is raised. */
  lemma TransformIdempotent(u: Universe, locations: Locations, state: int)
    requires Valid(u)
    requires locations.One? ==> TargetsInRange(u, [locations.loc])
    requires locations.Many? ==> TargetsInRange(u, locations.locs)
    ensures var once := Transform(u, locations, state);
      Transform(once.after, locations, state) == once
  {
    var once := Transform(u, locations, state);
    var v := once.after;
    assert locations.Many? ==> FirstBad(v, locations.locs) == FirstBad(u, locations.locs) by {
      if locations.Many? {
        FirstBadDependsOnDimensions(u, v, locations.locs);
      }
    }
    var twice := Transform(v, locations, state);
    Extensionality(twice.after, v);
  }

  lemma {:induction false} FirstBadDependsOnDimensions(u: Universe, v: Universe, locs: seq<Location>)
    requires Dimensions(u) == Dimensions(v)
    ensures FirstBad(u, locs) == FirstBad(v, locs)
    decreases |locs|
  {
    if |locs| > 0 {
      FirstBadDependsOnDimensions(u, v, locs[1..]);
    }
  }
}
