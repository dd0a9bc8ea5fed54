/**
 * Zone types, their build costs, and the validation `handle_zone_action`
 * applies to what the player types before anything is built.
 */
module Zones {
  import opened Wrappers

  /** The five zone types; a grid cell is empty (`'-'`) or holds one of them. */
  datatype Zone = Residential | Commercial | Industrial | School | Hospital

  datatype Cell = Empty | Built(zone: Zone)

  /** `GRID_SIZE`: the board is GridSize by GridSize, and build coordinates are checked against it. */
  const GridSize: nat := 10

  /** The build cost of each zone type (`zone_costs` in `place_zone`). */
  function Cost(z: Zone): (c: int)
    ensures c > 0
    ensures c == 1250 <==> z == Residential
    ensures c == 450 <==> z == Commercial || z == Industrial
    ensures c == 100 <==> z == School || z == Hospital
  {
    match z
    case Residential => 1250
    case Commercial => 450
    case Industrial => 450
    case School => 100
    case Hospital => 100
  }

  /** `str.upper` restricted to ASCII letters. */
  function UpperChar(c: char): char
  {
    if 'a' <= c <= 'z' then (c as int - 32) as char else c
  }

  function Upper(s: string): (u: string)
    ensures |u| == |s|
    ensures forall i :: 0 <= i < |s| ==> u[i] == UpperChar(s[i])
  {
    seq(|s|, i requires 0 <= i < |s| => UpperChar(s[i]))
  }

  /** Letter -> zone table: the input is upper-cased and looked up in `zone_map`. */
  function ZoneOfLetter(s: string): (r: Option<Zone>)
    ensures r == Some(Residential) <==> s == "R" || s == "r"
    ensures r == Some(Commercial) <==> s == "C" || s == "c"
    ensures r == Some(Industrial) <==> s == "I" || s == "i"
    ensures r == Some(School) <==> s == "S" || s == "s"
    ensures r == Some(Hospital) <==> s == "H" || s == "h"
  {
    var u := Upper(s);
    if |s| == 1 then
      assert u == [UpperChar(s[0])];
      if u == "R" then Some(Residential)
      else if u == "C" then Some(Commercial)
      else if u == "I" then Some(Industrial)
      else if u == "S" then Some(School)
      else if u == "H" then Some(Hospital)
      else None
    else
      None
  }

  /**
   * One round of the prompt loop in `handle_zone_action`: the two
   * coordinates as `int(input())` parsed them (None: the text was not an
   * integer, so `ValueError` sent the player back to the start) and the
   * zone letter typed afterwards.
   */
  datatype Attempt = Attempt(x: Option<int>, y: Option<int>, letter: string)

  datatype InputError = NotNumeric | OutOfRange | UnknownZone

  datatype Request = Request(x: int, y: int, zone: Zone)

  /** Validation of one attempt: numeric first, then range, then the letter. */
  function CheckAttempt(a: Attempt): (r: Result<Request, InputError>)
    ensures r.Success? <==>
      && a.x.Some? && a.y.Some?
      && 0 <= a.x.value < GridSize && 0 <= a.y.value < GridSize
      && ZoneOfLetter(a.letter).Some?
    ensures r.Success? ==>
      r.value == Request(a.x.value, a.y.value, ZoneOfLetter(a.letter).value)
    ensures r == Failure(NotNumeric) <==> a.x.None? || a.y.None?
    ensures r == Failure(UnknownZone) ==> ZoneOfLetter(a.letter).None?
  {
    if a.x.None? || a.y.None? then Failure(NotNumeric)
    else if !(0 <= a.x.value < GridSize && 0 <= a.y.value < GridSize) then Failure(OutOfRange)
    else match ZoneOfLetter(a.letter)
      case None => Failure(UnknownZone)
      case Some(z) => Success(Request(a.x.value, a.y.value, z))
  }

  /** The index of the first attempt from `start` on that validates, or `|attempts|` if none does. */
  function FirstValidFrom(attempts: seq<Attempt>, start: nat): (k: nat)
    requires start <= |attempts|
    ensures start <= k <= |attempts|
    ensures forall j :: start <= j < k ==> CheckAttempt(attempts[j]).Failure?
    ensures k < |attempts| ==> CheckAttempt(attempts[k]).Success?
    decreases |attempts| - start
  {
    if start == |attempts| then start
    else if CheckAttempt(attempts[start]).Success? then start
    else FirstValidFrom(attempts, start + 1)
  }

  /**
   * The `while True` loop of `handle_zone_action` over a finite stream of
   * attempts: the request built from the first attempt that validates.
   */
  function FirstValid(attempts: seq<Attempt>): (r: Option<Request>)
    ensures r.None? <==> forall i :: 0 <= i < |attempts| ==> CheckAttempt(attempts[i]).Failure?
    ensures r.Some? ==>
      exists i :: 0 <= i < |attempts| && CheckAttempt(attempts[i]) == Success(r.value)
        && forall j :: 0 <= j < i ==> CheckAttempt(attempts[j]).Failure?
  {
    var k := FirstValidFrom(attempts, 0);
    if k < |attempts| then Some(CheckAttempt(attempts[k]).value) else None
  }
}
