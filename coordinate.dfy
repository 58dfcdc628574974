/**
 * A point of the board (world/coordinate.py). Python compares and hashes
 * coordinates by their (x, y) value; a Dafny datatype has exactly that
 * equality, so a dictionary keyed by coordinates becomes a `map<Coord, _>`.
 */
module Coordinates {
  import opened Util
  import opened Enums

  datatype Coord = Coord(x: int, y: int)

  /** The neighbour of `c` one step in direction `d`. */
  function Step(c: Coord, d: Direction): Coord
  {
    Coord(c.x + Offset(d).0, c.y + Offset(d).1)
  }

  /** Manhattan distance. */
  function Distance(a: Coord, b: Coord): nat
  {
    Abs(a.x - b.x) + Abs(a.y - b.y)
  }

  /** `__hash__` hashes the pair (x, y); the model keeps the pair itself. */
  function Hash(c: Coord): (int, int)
  {
    (c.x, c.y)
  }

  /** The `other` argument of `__eq__`: any Python object, a Coordinate or not. */
  datatype PyObject = CoordObject(coord: Coord) | OtherObject

  /** `__eq__`: an isinstance check followed by a comparison of both fields. */
  function Equals(self: Coord, other: PyObject): bool
  {
    other.CoordObject? && self.x == other.coord.x && self.y == other.coord.y
  }

  /** `__eq__` is value equality, is false for any non-coordinate, and agrees with `__hash__`. */
  lemma EqualsIsValueEquality(a: Coord, other: PyObject)
    ensures Equals(a, other) <==> other == CoordObject(a)
    ensures other.OtherObject? ==> !Equals(a, other)
    ensures Equals(a, other) ==> Hash(a) == Hash(other.coord)
    ensures other.CoordObject? ==> (Hash(a) == Hash(other.coord) <==> Equals(a, other))
  {
  }

  // ----- `__str__`: "(x, y)" with Python's decimal rendering of ints -----

  function DigitChar(d: int): char
    requires 0 <= d < 10
  {
    "0123456789"[d]
  }

  predicate IsDigit(ch: char)
  {
    '0' <= ch <= '9'
  }

  function DigitValue(ch: char): int
    requires IsDigit(ch)
  {
    ch as int - '0' as int
  }

  /** Decimal digits of `n`, most significant first, without leading zeros. */
  function NatToString(n: nat): (s: string)
    ensures |s| >= 1 && forall i | 0 <= i < |s| :: IsDigit(s[i])
    decreases n
  {
    if n < 10 then [DigitChar(n)] else NatToString(n / 10) + [DigitChar(n % 10)]
  }

  /** `str(i)` for a Python int. */
  function IntToString(i: int): string
  {
    if i < 0 then "-" + NatToString(-i) else NatToString(i)
  }

  /** The string form of a coordinate. */
  function Show(c: Coord): string
  {
    "(" + IntToString(c.x) + ", " + IntToString(c.y) + ")"
  }

  // ----- the inverse of `__str__`, the partner of the round-trip lemma -----

  function ParseDigits(s: string): (n: nat)
    requires forall i | 0 <= i < |s| :: IsDigit(s[i])
  {
    if s == [] then 0 else ParseDigits(s[..|s| - 1]) * 10 + DigitValue(s[|s| - 1])
  }

  predicate AllDigits(s: string)
  {
    |s| >= 1 && forall i | 0 <= i < |s| :: IsDigit(s[i])
  }

  function ParseInt(s: string): Option<int>
  {
    if AllDigits(s) then Some(ParseDigits(s))
    else if |s| >= 2 && s[0] == '-' && AllDigits(s[1..]) then var n: int := ParseDigits(s[1..]); Some(-n)
    else None
  }

  /** Index of the first comma of `s`, if any. */
  function CommaIndex(s: string): (r: Option<nat>)
    ensures r.Some? ==> r.value < |s| && s[r.value] == ',' && ',' !in s[..r.value]
    ensures r.None? ==> ',' !in s
  {
    if s == [] then None
    else if s[0] == ',' then Some(0)
    else match CommaIndex(s[1..])
      case None => None
      case Some(k) =>
        assert s[..k + 1] == [s[0]] + s[1..][..k];
        Some(k + 1)
  }

  function ParseCoord(s: string): Option<Coord>
  {
    if |s| < 2 || s[0] != '(' || s[|s| - 1] != ')' then None
    else
      var inner := s[1..|s| - 1];
      match CommaIndex(inner)
      case None => None
      case Some(k) =>
        if k + 2 > |inner| || inner[k + 1] != ' ' then None
        else
          match (ParseInt(inner[..k]), ParseInt(inner[k + 2..]))
          case (Some(x), Some(y)) => Some(Coord(x, y))
          case _ => None
  }

  lemma {:induction false} NatStringRoundTrip(n: nat)
    ensures ParseDigits(NatToString(n)) == n
    decreases n
  {
    if n >= 10 {
      var s := NatToString(n / 10);
      NatStringRoundTrip(n / 10);
      assert (s + [DigitChar(n % 10)])[..|s|] == s;
    }
  }

  lemma IntStringRoundTrip(i: int)
    ensures ParseInt(IntToString(i)) == Some(i)
    ensures ',' !in IntToString(i)
  {
    NatStringRoundTrip(if i < 0 then -i else i);
    if i < 0 {
      var s := IntToString(i);
      assert s[1..] == NatToString(-i);
      assert !IsDigit(s[0]);
    }
  }

  /** Reading back the string form of a coordinate gives the coordinate. */
  lemma ShowRoundTrip(c: Coord)
    ensures ParseCoord(Show(c)) == Some(c)
  {
    var sx, sy := IntToString(c.x), IntToString(c.y);
    IntStringRoundTrip(c.x);
    IntStringRoundTrip(c.y);
    var s := Show(c);
    var inner := s[1..|s| - 1];
    assert inner == sx + ", " + sy;
    assert inner[..|sx|] == sx;
    assert inner[|sx|] == ',';
    assert CommaIndex(inner) == Some(|sx|);
    assert inner[|sx| + 2..] == sy;
  }
}
