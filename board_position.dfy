/**
 * A bounds-checked cell of the board, its canonical "x,y" key, its in-bounds
 * 8-neighbourhood, and the straight-line test used by the fleet validator
 * (src/models/BoardPosition.ts).
 */
module BoardPositions {
  import opened Wrappers
  import opened Constants
  import opened Sequences

  /** A pair of coordinates, possibly off the board. */
  datatype Pos = Pos(x: int, y: int)

  predicate InBounds(x: int, y: int) {
    0 <= x < BoardWidth && 0 <= y < BoardWidth
  }

  /** A position that the constructor accepted: every BoardPosition object is on the board. */
  type BoardPosition = p: Pos | InBounds(p.x, p.y) witness Pos(0, 0)

  datatype PositionError = OutOfBounds(x: int, y: int) | InvalidKey(key: string)

  /** The constructor: it throws unless both coordinates lie in [0, BoardWidth). */
  function NewPosition(x: int, y: int): (r: Result<BoardPosition, PositionError>)
    ensures r.Ok? <==> 0 <= x < BoardWidth && 0 <= y < BoardWidth
    ensures r.Ok? ==> r.value.x == x && r.value.y == y
    ensures r.Err? ==> r.error == OutOfBounds(x, y)
  {
    if x < 0 || y < 0 || x >= BoardWidth || y >= BoardWidth then Err(OutOfBounds(x, y))
    else Ok(Pos(x, y))
  }

  // ---------------------------------------------------------------------------
  // Decimal numerals, as `${n}` prints a non-negative integer and parseInt reads it

  predicate IsDigit(c: char) {
    '0' <= c <= '9'
  }

  function DigitChar(d: int): (c: char)
    requires 0 <= d < 10
    ensures IsDigit(c)
  {
    ('0' as int + d) as char
  }

  function DigitValue(c: char): int
    requires IsDigit(c)
  {
    c as int - '0' as int
  }

  predicate AllDigits(s: string) {
    forall i :: 0 <= i < |s| ==> IsDigit(s[i])
  }

  /** The value of a string of decimal digits, most significant first. */
  function DecimalValue(s: string): nat
    requires AllDigits(s)
  {
    if s == [] then 0 else DecimalValue(s[..|s| - 1]) * 10 + DigitValue(s[|s| - 1])
  }

  /** The shortest decimal numeral of n: no sign, no leading zero. */
  function NatToDecimal(n: nat): (s: string)
    ensures |s| > 0 && AllDigits(s)
  {
    if n < 10 then [DigitChar(n)] else NatToDecimal(n / 10) + [DigitChar(n % 10)]
  }

  lemma {:induction false} DecimalValueOfNatToDecimal(n: nat)
    ensures DecimalValue(NatToDecimal(n)) == n
  {
    var s := NatToDecimal(n);
    if n < 10 {
      assert s[..0] == [];
    } else {
      DecimalValueOfNatToDecimal(n / 10);
      assert s[..|s| - 1] == NatToDecimal(n / 10);
    }
  }

  /** A number as parseInt returns it: an integer, or NaN when no digits were read. */
  datatype JsNumber = Finite(v: int) | NaN

  /**
   * parseInt on a key field. Only plain digit strings are read as numbers;
   * signs, blanks and trailing characters give NaN here.
   */
  function ParseInt(s: string): (n: JsNumber)
    ensures n.Finite? <==> s != [] && AllDigits(s)
    ensures n.Finite? ==> n.v >= 0
  {
    if s != [] && AllDigits(s) then Finite(DecimalValue(s)) else NaN
  }

  // ---------------------------------------------------------------------------
  // Splitting at a separator, as String.prototype.split with a one-character separator

  /** The fields of s between occurrences of sep; there is always at least one. */
  function Split(s: string, sep: char): (parts: seq<string>)
    ensures |parts| >= 1
  {
    if s == [] then [[]]
    else
      var rest := Split(s[1..], sep);
      if s[0] == sep then [[]] + rest else [[s[0]] + rest[0]] + rest[1..]
  }

  /** The inverse of Split: the fields glued back together with sep between them. */
  function Join(parts: seq<string>, sep: char): string {
    if parts == [] then [] else if |parts| == 1 then parts[0] else parts[0] + [sep] + Join(parts[1..], sep)
  }

  lemma {:induction false} SplitJoin(s: string, sep: char)
    ensures Join(Split(s, sep), sep) == s
    ensures forall i :: 0 <= i < |Split(s, sep)| ==> sep !in Split(s, sep)[i]
  {
    if s != [] {
      SplitJoin(s[1..], sep);
      var rest := Split(s[1..], sep);
      if s[0] == sep {
        assert Split(s, sep)[1..] == rest;
      } else {
        var parts := Split(s, sep);
        assert parts[1..] == rest[1..];
        if |rest| == 1 {
          assert Join(parts, sep) == [s[0]] + rest[0];
        } else {
          assert Join(rest, sep) == rest[0] + [sep] + Join(rest[1..], sep);
          assert Join(parts, sep) == [s[0]] + rest[0] + [sep] + Join(rest[1..], sep);
        }
        assert s == [s[0]] + s[1..];
        forall i | 0 <= i < |parts| ensures sep !in parts[i] {
          if i > 0 {
            assert parts[i] == rest[i];
          }
        }
      }
    }
  }

  /** A string free of sep is a single field. */
  lemma {:induction false} SplitNoSeparator(a: string, sep: char)
    requires sep !in a
    ensures Split(a, sep) == [a]
  {
    if a != [] {
      SplitNoSeparator(a[1..], sep);
      assert a == [a[0]] + a[1..];
    }
  }

  /** Splitting a + [sep] + b where a holds no separator yields a, then the fields of b. */
  lemma {:induction false} SplitAtFirst(a: string, b: string, sep: char)
    requires sep !in a
    ensures Split(a + [sep] + b, sep) == [a] + Split(b, sep)
  {
    if a == [] {
      assert a + [sep] + b == [sep] + b;
      assert ([sep] + b)[1..] == b;
    } else {
      var s := a + [sep] + b;
      assert s[0] == a[0];
      assert s[1..] == a[1..] + [sep] + b;
      SplitAtFirst(a[1..], b, sep);
      assert a == [a[0]] + a[1..];
    }
  }

  // ---------------------------------------------------------------------------
  // The key

  /** toString: the canonical key "x,y" of a position. */
  function ToString(p: BoardPosition): (s: string)
    ensures |Split(s, ',')| == 2
    ensures ParseInt(Split(s, ',')[0]) == Finite(p.x) && ParseInt(Split(s, ',')[1]) == Finite(p.y)
  {
    NatToDecimalHasNoComma(p.x);
    NatToDecimalHasNoComma(p.y);
    SplitAtFirst(NatToDecimal(p.x), NatToDecimal(p.y), ',');
    SplitNoSeparator(NatToDecimal(p.y), ',');
    ParseIntOfNatToDecimal(p.x);
    ParseIntOfNatToDecimal(p.y);
    NatToDecimal(p.x) + [','] + NatToDecimal(p.y)
  }

  /** fromString: decode a key, rejecting any key that does not re-encode to itself. */
  function FromString(s: string): (r: Result<BoardPosition, PositionError>)
    ensures r.Ok? ==> ToString(r.value) == s
    ensures r.Err? && r.error.InvalidKey? ==> r.error.key == s
    ensures r.Err? && r.error.OutOfBounds? ==> !InBounds(r.error.x, r.error.y)
  {
    var fields := Split(s, ',');
    var x := ParseInt(fields[0]);
    var y := if |fields| > 1 then ParseInt(fields[1]) else NaN;
    if x.NaN? || y.NaN? then Err(InvalidKey(s))
    else
      match NewPosition(x.v, y.v)
      case Err(e) => Err(e)
      case Ok(p) => if ToString(p) != s then Err(InvalidKey(s)) else Ok(p)
  }

  lemma NatToDecimalHasNoComma(n: nat)
    ensures ',' !in NatToDecimal(n)
  {
    var s := NatToDecimal(n);
    forall i | 0 <= i < |s| ensures s[i] != ',' {
      assert IsDigit(s[i]);
    }
  }

  lemma ParseIntOfNatToDecimal(n: nat)
    ensures ParseInt(NatToDecimal(n)) == Finite(n)
  {
    DecimalValueOfNatToDecimal(n);
  }

  /** Round trip: decoding the key of a position gives the position back. */
  lemma FromStringToString(p: BoardPosition)
    ensures FromString(ToString(p)) == Ok(p)
  {
    NatToDecimalHasNoComma(p.x);
    NatToDecimalHasNoComma(p.y);
    SplitAtFirst(NatToDecimal(p.x), NatToDecimal(p.y), ',');
    SplitNoSeparator(NatToDecimal(p.y), ',');
    ParseIntOfNatToDecimal(p.x);
    ParseIntOfNatToDecimal(p.y);
  }

  /** A key is accepted exactly when it is the canonical key of the position it decodes to. */
  lemma FromStringOnlyCanonical(s: string, p: BoardPosition)
    ensures FromString(s) == Ok(p) <==> s == ToString(p)
  {
    if s == ToString(p) {
      FromStringToString(p);
    }
  }

  /** Distinct positions have distinct keys, so sets of keys and sets of positions correspond. */
  lemma ToStringInjective(p: BoardPosition, q: BoardPosition)
    ensures ToString(p) == ToString(q) <==> p == q
  {
    FromStringToString(p);
    FromStringToString(q);
  }

  /** The keys of a set of positions, as a Set of "x,y" strings holds them. */
  function KeysOf(A: set<BoardPosition>): set<string> {
    set q | q in A :: ToString(q)
  }

  /** Asking the set of keys for p's key is asking the set of positions for p. */
  lemma KeysOfMember(A: set<BoardPosition>, p: BoardPosition)
    ensures p in A <==> ToString(p) in KeysOf(A)
  {
    forall q | q in A ensures ToString(q) == ToString(p) ==> q == p {
      ToStringInjective(p, q);
    }
  }

  /** A key written with a leading zero is refused, although it names a cell on the board. */
  lemma FromStringRejectsLeadingZero()
    ensures FromString("03,4") == Err(InvalidKey("03,4"))
  {
    var s := "03,4";
    assert s == "03" + [','] + "4";
    SplitAtFirst("03", "4", ',');
    SplitNoSeparator("4", ',');
    assert "03"[..1] == "0";
    assert ToString(Pos(3, 4)) == "3,4";
  }

  // ---------------------------------------------------------------------------
  // fromString as written: the constructor's guard compares with `<` and `>=`,
  // and every comparison with NaN is false, so a NaN coordinate passes it.

  /** A coordinate pair as the JavaScript object holds it. */
  datatype RawPosition = RawPosition(x: JsNumber, y: JsNumber)

  predicate JsLess(a: JsNumber, b: int) {
    a.Finite? && a.v < b
  }

  predicate JsAtLeast(a: JsNumber, b: int) {
    a.Finite? && a.v >= b
  }

  /** The guard of the constructor as written: the position is refused when this holds. */
  predicate GuardRefuses(x: JsNumber, y: JsNumber) {
    JsLess(x, 0) || JsLess(y, 0) || JsAtLeast(x, BoardWidth) || JsAtLeast(y, BoardWidth)
  }

  /** `${n}` for a number the guard let through. */
  function JsNumberToString(n: JsNumber): string
    requires n.Finite? ==> n.v >= 0
  {
    if n.NaN? then "NaN" else NatToDecimal(n.v)
  }

  /**
   * fromString as written, NaN coordinates included, except that a field with
   * a sign, blanks or trailing characters fails with InvalidKey rather than
   * OutOfBounds (see ParseInt).
   */
  function FromStringAsWritten(s: string): (r: Result<RawPosition, PositionError>)
    ensures r.Ok? ==> !GuardRefuses(r.value.x, r.value.y)
    ensures r.Ok? && r.value.x.Finite? && r.value.y.Finite? ==> InBounds(r.value.x.v, r.value.y.v)
    ensures r.Err? && r.error.InvalidKey? ==> r.error.key == s
  {
    var fields := Split(s, ',');
    var x := ParseInt(fields[0]);
    var y := if |fields| > 1 then ParseInt(fields[1]) else NaN;
    if GuardRefuses(x, y) then Err(OutOfBounds(if x.Finite? then x.v else 0, if y.Finite? then y.v else 0))
    else if JsNumberToString(x) + [','] + JsNumberToString(y) != s then Err(InvalidKey(s))
    else Ok(RawPosition(x, y))
  }

  /** The key "NaN,NaN" is accepted as written and decodes to a position that is not on the board. */
  lemma FromStringAsWrittenAcceptsNaN()
    ensures FromStringAsWritten("NaN,NaN") == Ok(RawPosition(NaN, NaN))
    ensures FromString("NaN,NaN") == Err(InvalidKey("NaN,NaN"))
  {
    assert "NaN,NaN" == "NaN" + [','] + "NaN";
    SplitAtFirst("NaN", "NaN", ',');
    SplitNoSeparator("NaN", ',');
    assert !IsDigit("NaN"[0]);
  }

  /** Every key the corrected decoder accepts decodes to a cell on the board. */
  lemma FromStringOnBoard(s: string)
    ensures FromString(s).Ok? ==> InBounds(FromString(s).value.x, FromString(s).value.y)
    ensures FromString(s).Ok? ==> FromStringAsWritten(s) == Ok(RawPosition(Finite(FromString(s).value.x), Finite(FromString(s).value.y)))
  {
  }

  // ---------------------------------------------------------------------------
  // Neighbours

  /** Chebyshev distance: the number of king moves between two cells. */
  function Chebyshev(p: Pos, q: Pos): nat {
    var dx := if p.x < q.x then q.x - p.x else p.x - q.x;
    var dy := if p.y < q.y then q.y - p.y else p.y - q.y;
    if dx < dy then dy else dx
  }

  /** Two cells touch, along a side or at a corner. */
  predicate Adjacent(p: Pos, q: Pos) {
    Chebyshev(p, q) == 1
  }

  /** The eight surrounding coordinate pairs, in the order adjacentPositions lists them. */
  function Surrounding(p: BoardPosition): seq<Pos> {
    [Pos(p.x - 1, p.y), Pos(p.x + 1, p.y), Pos(p.x, p.y - 1), Pos(p.x, p.y + 1),
     Pos(p.x - 1, p.y - 1), Pos(p.x + 1, p.y - 1), Pos(p.x - 1, p.y + 1), Pos(p.x + 1, p.y + 1)]
  }

  /** The reduce of adjacentPositions: keep, in order, the pairs the constructor accepts. */
  function KeepConstructible(cs: seq<Pos>): (r: seq<BoardPosition>)
    ensures forall q: BoardPosition :: q in r <==> q in cs
    ensures |r| <= |cs|
  {
    if cs == [] then []
    else
      match NewPosition(cs[0].x, cs[0].y)
      case Ok(p) => [p] + KeepConstructible(cs[1..])
      case Err(_) => KeepConstructible(cs[1..])
  }

  lemma {:induction false} KeepConstructibleConcat(a: seq<Pos>, b: seq<Pos>)
    ensures KeepConstructible(a + b) == KeepConstructible(a) + KeepConstructible(b)
  {
    if a == [] {
      assert a + b == b;
    } else {
      assert (a + b)[0] == a[0];
      assert (a + b)[1..] == a[1..] + b;
      KeepConstructibleConcat(a[1..], b);
    }
  }

  /** adjacentPositions: at most eight cells, each touching p. */
  function AdjacentPositions(p: BoardPosition): (r: seq<BoardPosition>)
    ensures |r| <= 8
    ensures forall q :: q in r ==> Adjacent(p, q)
  {
    SurroundingIsAdjacent(p);
    KeepConstructible(Surrounding(p))
  }

  /** The neighbours are exactly the cells of the board at Chebyshev distance 1, none listed twice. */
  lemma AdjacentPositionsSpec(p: BoardPosition)
    ensures forall q: BoardPosition :: q in AdjacentPositions(p) <==> Adjacent(p, q)
    ensures Distinct(AdjacentPositions(p))
  {
    forall q: BoardPosition ensures q in Surrounding(p) <==> Adjacent(p, q) {
      if Adjacent(p, q) {
        AdjacentIsSurrounding(p, q);
      } else {
        SurroundingIsAdjacent(p);
      }
    }
    DistinctSurrounding(p);
    KeepConstructiblePreservesDistinct(Surrounding(p));
  }

  lemma SurroundingIsAdjacent(p: BoardPosition)
    ensures forall i :: 0 <= i < |Surrounding(p)| ==> Adjacent(p, Surrounding(p)[i])
  {
  }

  lemma AdjacentIsSurrounding(p: BoardPosition, q: Pos)
    requires Adjacent(p, q)
    ensures q in Surrounding(p)
  {
    var c := Surrounding(p);
    if q.x == p.x {
      assert q == c[2] || q == c[3];
    } else if q.y == p.y {
      assert q == c[0] || q == c[1];
    } else if q.y == p.y - 1 {
      assert q == c[4] || q == c[5];
    } else {
      assert q == c[6] || q == c[7];
    }
  }

  lemma DistinctSurrounding(p: BoardPosition)
    ensures Distinct(Surrounding(p))
  {
  }

  lemma {:induction false} KeepConstructiblePreservesDistinct(cs: seq<Pos>)
    requires Distinct(cs)
    ensures Distinct(KeepConstructible(cs))
  {
    if cs != [] {
      var rest := cs[1..];
      assert Distinct(rest) by {
        forall i, j | 0 <= i < j < |rest| ensures rest[i] != rest[j] {
          assert rest[i] == cs[i + 1] && rest[j] == cs[j + 1];
        }
      }
      KeepConstructiblePreservesDistinct(rest);
      forall k | 0 <= k < |rest| ensures rest[k] != cs[0] {
        assert rest[k] == cs[k + 1];
      }
      var kept, r := KeepConstructible(rest), KeepConstructible(cs);
      if InBounds(cs[0].x, cs[0].y) {
        assert r == [cs[0]] + kept;
        forall i, j | 0 <= i < j < |r| ensures r[i] != r[j] {
          assert r[j] == kept[j - 1];
          if i > 0 {
            assert r[i] == kept[i - 1];
          } else {
            assert r[j] in kept;
          }
        }
      }
    }
  }

  /** q is a neighbour of p exactly when p is a neighbour of q. */
  lemma AdjacentPositionsSymmetric(p: BoardPosition, q: BoardPosition)
    ensures q in AdjacentPositions(p) <==> p in AdjacentPositions(q)
  {
    AdjacentPositionsSpec(p);
    AdjacentPositionsSpec(q);
  }

  predicate OnEdgeLine(v: int) {
    v == 0 || v == BoardWidth - 1
  }

  function Indicator(b: bool): nat {
    if b then 1 else 0
  }

  lemma KeepConstructibleCons(c: Pos, rest: seq<Pos>)
    ensures |KeepConstructible([c] + rest)| == Indicator(InBounds(c.x, c.y)) + |KeepConstructible(rest)|
  {
    assert ([c] + rest)[1..] == rest;
  }

  /** Of the four side neighbours, one is lost on each border line the cell lies on. */
  lemma SidesKept(p: BoardPosition)
    ensures |KeepConstructible(Surrounding(p)[..4])| ==
      Indicator(p.x > 0) + Indicator(p.x < BoardWidth - 1) + Indicator(p.y > 0) + Indicator(p.y < BoardWidth - 1)
  {
    var a, b, c, d := Pos(p.x - 1, p.y), Pos(p.x + 1, p.y), Pos(p.x, p.y - 1), Pos(p.x, p.y + 1);
    assert Surrounding(p)[..4] == [a] + ([b] + ([c] + ([d] + [])));
    KeepConstructibleCons(d, []);
    KeepConstructibleCons(c, [d] + []);
    KeepConstructibleCons(b, [c] + ([d] + []));
    KeepConstructibleCons(a, [b] + ([c] + ([d] + [])));
  }

  /** A corner neighbour survives only when neither of its coordinates leaves the board. */
  lemma CornersKept(p: BoardPosition)
    ensures |KeepConstructible(Surrounding(p)[4..])| ==
      Indicator(p.x > 0 && p.y > 0) + Indicator(p.x < BoardWidth - 1 && p.y > 0) +
      Indicator(p.x > 0 && p.y < BoardWidth - 1) + Indicator(p.x < BoardWidth - 1 && p.y < BoardWidth - 1)
  {
    var a, b, c, d := Pos(p.x - 1, p.y - 1), Pos(p.x + 1, p.y - 1), Pos(p.x - 1, p.y + 1), Pos(p.x + 1, p.y + 1);
    assert Surrounding(p)[4..] == [a] + ([b] + ([c] + ([d] + [])));
    KeepConstructibleCons(d, []);
    KeepConstructibleCons(c, [d] + []);
    KeepConstructibleCons(b, [c] + ([d] + []));
    KeepConstructibleCons(a, [b] + ([c] + ([d] + [])));
  }

  /** A corner cell has 3 neighbours, another border cell 5, an inner cell 8. */
  lemma AdjacentPositionsCount(p: BoardPosition)
    ensures |AdjacentPositions(p)| ==
      if OnEdgeLine(p.x) && OnEdgeLine(p.y) then 3
      else if OnEdgeLine(p.x) || OnEdgeLine(p.y) then 5
      else 8
  {
    var c := Surrounding(p);
    assert c == c[..4] + c[4..];
    KeepConstructibleConcat(c[..4], c[4..]);
    SidesKept(p);
    CornersKept(p);
  }

  // ---------------------------------------------------------------------------
  // Straight lines

  /** The sort comparator (a, b) => a.x - b.x || a.y - b.y, read as "a may come before b". */
  predicate LessEq(a: Pos, b: Pos) {
    a.x < b.x || (a.x == b.x && a.y <= b.y)
  }

  predicate Sorted(s: seq<BoardPosition>) {
    forall i, j :: 0 <= i < j < |s| ==> LessEq(s[i], s[j])
  }

  function Insert(p: BoardPosition, s: seq<BoardPosition>): (r: seq<BoardPosition>)
    requires Sorted(s)
    ensures Sorted(r)
    ensures multiset(r) == multiset(s) + multiset{p}
  {
    if s == [] || LessEq(p, s[0]) then [p] + s
    else
      var rest := Insert(p, s[1..]);
      InsertBehindHead(p, s, rest);
      [s[0]] + rest
  }

  /** Putting the head of s in front of a sorted permutation of its tail and p keeps it sorted. */
  lemma InsertBehindHead(p: BoardPosition, s: seq<BoardPosition>, rest: seq<BoardPosition>)
    requires Sorted(s) && s != [] && !LessEq(p, s[0])
    requires Sorted(rest) && multiset(rest) == multiset(s[1..]) + multiset{p}
    ensures Sorted([s[0]] + rest)
    ensures multiset([s[0]] + rest) == multiset(s) + multiset{p}
  {
    forall k | 0 <= k < |rest| ensures LessEq(s[0], rest[k]) {
      assert rest[k] in multiset(rest);
      if rest[k] != p {
        assert rest[k] in multiset(s[1..]);
        var m :| 0 <= m < |s[1..]| && s[1..][m] == rest[k];
        assert s[m + 1] == rest[k];
      }
    }
    var r := [s[0]] + rest;
    forall i, j | 0 <= i < j < |r| ensures LessEq(r[i], r[j]) {
      if i == 0 {
        assert r[j] == rest[j - 1];
      } else {
        assert r[i] == rest[i - 1] && r[j] == rest[j - 1];
      }
    }
    assert s == [s[0]] + s[1..];
  }

  /** positions.slice().sort(comparator): a sorted permutation of the input. */
  function Sort(s: seq<BoardPosition>): (r: seq<BoardPosition>)
    ensures Sorted(r)
    ensures multiset(r) == multiset(s)
  {
    if s == [] then []
    else
      assert s == [s[0]] + s[1..];
      Insert(s[0], Sort(s[1..]))
  }

  /** The keys of the positions, as the Set built for the duplicate check holds them. */
  function KeySet(positions: seq<BoardPosition>): set<string> {
    KeysOf(Elements(positions))
  }

  /** Every position shares the first one's y ... */
  predicate SameY(s: seq<BoardPosition>) {
    forall i :: 0 <= i < |s| ==> s[i].y == s[0].y
  }

  /** ... and the x values count up by one from the first. */
  predicate ConsecutiveX(s: seq<BoardPosition>) {
    forall i :: 0 <= i < |s| ==> s[i].x == s[0].x + i
  }

  predicate SameX(s: seq<BoardPosition>) {
    forall i :: 0 <= i < |s| ==> s[i].x == s[0].x
  }

  predicate ConsecutiveY(s: seq<BoardPosition>) {
    forall i :: 0 <= i < |s| ==> s[i].y == s[0].y + i
  }

  /** areInLine: a repeated position always gives false. */
  function AreInLine(positions: seq<BoardPosition>): (b: bool)
    ensures b ==> Distinct(positions)
  {
    KeySetCard(positions);
    var sorted := Sort(positions);
    if |KeySet(positions)| != |positions| then false
    else (SameY(sorted) && ConsecutiveX(sorted)) || (SameX(sorted) && ConsecutiveY(sorted))
  }

  /** areInLineStrings: decode every key (the first bad key fails the call), then test the positions. */
  function AreInLineStrings(keys: seq<string>): (r: Result<bool, PositionError>)
    ensures r.Ok? <==> forall i :: 0 <= i < |keys| ==> FromString(keys[i]).Ok?
    ensures r.Err? ==> exists i :: 0 <= i < |keys| && FromString(keys[i]) == Err(r.error)
                                 && forall j :: 0 <= j < i ==> FromString(keys[j]).Ok?
    ensures r.Ok? ==> exists positions :: && |positions| == |keys|
                                          && (forall i :: 0 <= i < |keys| ==> FromString(keys[i]) == Ok(positions[i]))
                                          && r.value == AreInLine(positions)
  {
    DecodeAllSpec(keys);
    match DecodeAll(keys)
    case Err(e) => Err(e)
    case Ok(positions) => Ok(AreInLine(positions))
  }

  function DecodeAll(keys: seq<string>): Result<seq<BoardPosition>, PositionError> {
    if keys == [] then Ok([])
    else
      match FromString(keys[0])
      case Err(e) => Err(e)
      case Ok(p) =>
        match DecodeAll(keys[1..])
        case Err(e) => Err(e)
        case Ok(ps) => Ok([p] + ps)
  }

  /** DecodeAll succeeds exactly when every key decodes, and otherwise fails with the first bad key's error. */
  lemma {:induction false} DecodeAllSpec(keys: seq<string>)
    ensures DecodeAll(keys).Ok? <==> forall i :: 0 <= i < |keys| ==> FromString(keys[i]).Ok?
    ensures DecodeAll(keys).Ok? ==> |DecodeAll(keys).value| == |keys|
    ensures DecodeAll(keys).Ok? ==> forall i :: 0 <= i < |keys| ==>
              FromString(keys[i]).Ok? && DecodeAll(keys).value[i] == FromString(keys[i]).value
    ensures DecodeAll(keys).Err? ==> exists i :: 0 <= i < |keys| && FromString(keys[i]) == Err(DecodeAll(keys).error)
                                               && forall j :: 0 <= j < i ==> FromString(keys[j]).Ok?
  {
    if keys != [] {
      DecodeAllSpec(keys[1..]);
      if FromString(keys[0]).Ok? {
        forall i | 0 <= i < |keys[1..]| ensures keys[1..][i] == keys[i + 1] {
        }
        var rest := DecodeAll(keys[1..]);
        if rest.Err? {
          var i :| 0 <= i < |keys[1..]| && FromString(keys[1..][i]) == Err(rest.error)
                   && forall j :: 0 <= j < i ==> FromString(keys[1..][j]).Ok?;
          assert FromString(keys[i + 1]) == Err(rest.error);
          forall j | 0 <= j < i + 1 ensures FromString(keys[j]).Ok? {
            if j > 0 {
              assert keys[j] == keys[1..][j - 1];
            }
          }
        } else {
          var all := [FromString(keys[0]).value] + rest.value;
          assert DecodeAll(keys) == Ok(all);
          forall i | 0 <= i < |keys| ensures FromString(keys[i]).Ok? && all[i] == FromString(keys[i]).value {
            if i > 0 {
              assert keys[i] == keys[1..][i - 1];
              assert all[i] == rest.value[i - 1];
            }
          }
        }
      }
    }
  }

  /** The keys of a list of positions, in order. */
  function Keys(positions: seq<BoardPosition>): (keys: seq<string>)
    ensures |keys| == |positions|
  {
    if positions == [] then [] else [ToString(positions[0])] + Keys(positions[1..])
  }

  /** The cells of C lie in one row and leave no gap in it. */
  ghost predicate IsRowSegment(C: set<BoardPosition>) {
    && (forall p, q :: p in C && q in C ==> p.y == q.y)
    && (forall p, q, x :: p in C && q in C && p.x < x < q.x ==> Pos(x, p.y) in C)
  }

  /** The cells of C lie in one column and leave no gap in it. */
  ghost predicate IsColumnSegment(C: set<BoardPosition>) {
    && (forall p, q :: p in C && q in C ==> p.x == q.x)
    && (forall p, q, y :: p in C && q in C && p.y < y < q.y ==> Pos(p.x, y) in C)
  }

  /** C is one straight, unbroken horizontal or vertical run of cells. */
  ghost predicate IsLine(C: set<BoardPosition>) {
    IsRowSegment(C) || IsColumnSegment(C)
  }

  lemma {:induction false} KeyImageCard(A: set<BoardPosition>)
    ensures |KeysOf(A)| == |A|
    decreases |A|
  {
    if A != {} {
      var a :| a in A;
      var rest := A - {a};
      KeyImageCard(rest);
      var image, restImage := KeysOf(A), KeysOf(rest);
      assert image == restImage + {ToString(a)};
      forall b | b in rest ensures ToString(b) != ToString(a) {
        ToStringInjective(a, b);
      }
      assert ToString(a) !in restImage;
    }
  }

  /** The duplicate check of areInLine sees a duplicate exactly when a position repeats. */
  lemma KeySetCard(positions: seq<BoardPosition>)
    ensures |KeySet(positions)| == |positions| <==> Distinct(positions)
  {
    KeyImageCard(Elements(positions));
    DistinctCard(positions);
  }

  /** A sorted sequence without duplicates is strictly increasing in the comparator's order. */
  lemma SortedDistinctStrict(s: seq<BoardPosition>, i: int, j: int)
    requires Sorted(s) && Distinct(s)
    requires 0 <= i < j < |s|
    ensures s[i].x < s[j].x || (s[i].x == s[j].x && s[i].y < s[j].y)
  {
  }

  lemma {:induction false} RowConsecutive(s: seq<BoardPosition>, i: int)
    requires Sorted(s) && Distinct(s) && IsRowSegment(Elements(s))
    requires 0 <= i < |s|
    ensures s[i].x == s[0].x + i
  {
    if i > 0 {
      RowConsecutive(s, i - 1);
      var C := Elements(s);
      assert s[i - 1] in C && s[i] in C && s[0] in C;
      SortedDistinctStrict(s, i - 1, i);
      if s[i].x > s[i - 1].x + 1 {
        var x := s[i - 1].x + 1;
        assert Pos(x, s[i - 1].y) in C;
        var k :| 0 <= k < |s| && s[k] == Pos(x, s[i - 1].y);
        if k < i - 1 {
          SortedDistinctStrict(s, k, i - 1);
        } else if k > i {
          SortedDistinctStrict(s, i, k);
        }
      }
    }
  }

  lemma {:induction false} ColumnConsecutive(s: seq<BoardPosition>, i: int)
    requires Sorted(s) && Distinct(s) && IsColumnSegment(Elements(s))
    requires 0 <= i < |s|
    ensures s[i].y == s[0].y + i
  {
    if i > 0 {
      ColumnConsecutive(s, i - 1);
      var C := Elements(s);
      assert s[i - 1] in C && s[i] in C && s[0] in C;
      SortedDistinctStrict(s, i - 1, i);
      if s[i].y > s[i - 1].y + 1 {
        var y := s[i - 1].y + 1;
        assert Pos(s[i - 1].x, y) in C;
        var k :| 0 <= k < |s| && s[k] == Pos(s[i - 1].x, y);
        if k < i - 1 {
          SortedDistinctStrict(s, k, i - 1);
        } else if k > i {
          SortedDistinctStrict(s, i, k);
        }
      }
    }
  }

  /** On sorted distinct positions, the row test of areInLine holds exactly for row segments. */
  lemma RowTestSpec(s: seq<BoardPosition>)
    requires Sorted(s) && Distinct(s)
    ensures SameY(s) && ConsecutiveX(s) <==> IsRowSegment(Elements(s))
  {
    var C := Elements(s);
    if SameY(s) && ConsecutiveX(s) {
      forall p, q, x | p in C && q in C && p.x < x < q.x ensures Pos(x, p.y) in C {
        var k := x - s[0].x;
        var i :| 0 <= i < |s| && s[i] == p;
        var j :| 0 <= j < |s| && s[j] == q;
        assert i < k < j;
        assert s[k] == Pos(x, p.y);
      }
    }
    if IsRowSegment(C) {
      forall i | 0 <= i < |s| ensures s[i].y == s[0].y && s[i].x == s[0].x + i {
        assert s[i] in C && s[0] in C;
        RowConsecutive(s, i);
      }
    }
  }

  /** On sorted distinct positions, the column test of areInLine holds exactly for column segments. */
  lemma ColumnTestSpec(s: seq<BoardPosition>)
    requires Sorted(s) && Distinct(s)
    ensures SameX(s) && ConsecutiveY(s) <==> IsColumnSegment(Elements(s))
  {
    var C := Elements(s);
    if SameX(s) && ConsecutiveY(s) {
      forall p, q, y | p in C && q in C && p.y < y < q.y ensures Pos(p.x, y) in C {
        var k := y - s[0].y;
        var i :| 0 <= i < |s| && s[i] == p;
        var j :| 0 <= j < |s| && s[j] == q;
        assert i < k < j;
        assert s[k] == Pos(p.x, y);
      }
    }
    if IsColumnSegment(C) {
      forall i | 0 <= i < |s| ensures s[i].x == s[0].x && s[i].y == s[0].y + i {
        assert s[i] in C && s[0] in C;
        ColumnConsecutive(s, i);
      }
    }
  }

  /** Permutations have the same elements and agree on being free of duplicates. */
  lemma PermutationElements<T>(a: seq<T>, b: seq<T>)
    requires multiset(a) == multiset(b)
    ensures Elements(a) == Elements(b)
    ensures Distinct(a) <==> Distinct(b)
  {
    assert forall x :: x in a <==> x in multiset(a);
    assert forall x :: x in b <==> x in multiset(b);
    assert |a| == |multiset(a)| == |b|;
    DistinctCard(a);
    DistinctCard(b);
  }

  /**
   * areInLine holds exactly when no position repeats and the positions form one
   * straight unbroken row or column. A duplicate therefore always gives false.
   */
  lemma AreInLineSpec(positions: seq<BoardPosition>)
    ensures AreInLine(positions) <==> Distinct(positions) && IsLine(Elements(positions))
  {
    var sorted := Sort(positions);
    KeySetCard(positions);
    PermutationElements(positions, sorted);
    if Distinct(positions) {
      RowTestSpec(sorted);
      ColumnTestSpec(sorted);
    }
  }

  /** areInLine does not depend on the order of its input. */
  lemma AreInLinePermutation(a: seq<BoardPosition>, b: seq<BoardPosition>)
    requires multiset(a) == multiset(b)
    ensures AreInLine(a) == AreInLine(b)
  {
    AreInLineSpec(a);
    AreInLineSpec(b);
    PermutationElements(a, b);
  }

  /** A single position is in line. */
  lemma AreInLineSingle(p: BoardPosition)
    ensures AreInLine([p])
  {
    AreInLineSpec([p]);
    assert Elements([p]) == {p};
  }

  /** Decoding the keys of some positions gives the positions back. */
  lemma {:induction false} DecodeAllKeys(positions: seq<BoardPosition>)
    ensures DecodeAll(Keys(positions)) == Ok(positions)
  {
    if positions != [] {
      var keys := Keys(positions);
      assert keys[1..] == Keys(positions[1..]);
      FromStringToString(positions[0]);
      DecodeAllKeys(positions[1..]);
      assert positions == [positions[0]] + positions[1..];
    }
  }

  /** On keys made by toString, areInLineStrings never fails and agrees with areInLine. */
  lemma AreInLineStringsOfKeys(positions: seq<BoardPosition>)
    ensures AreInLineStrings(Keys(positions)) == Ok(AreInLine(positions))
  {
    DecodeAllKeys(positions);
  }
}
