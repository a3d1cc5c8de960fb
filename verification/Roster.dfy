/** The fixed list of drivers and the lookup of a driver by its id. */
module Roster {
  /** The first position of `id`, or -1. */
  function IndexOf(roster: seq<string>, id: string): (r: int)
    ensures -1 <= r < |roster|
    ensures r >= 0 ==> roster[r] == id && forall i :: 0 <= i < r ==> roster[i] != id
    ensures r == -1 <==> id !in roster
  {
    if roster == [] then -1
    else if roster[0] == id then 0
    else
      var rest := IndexOf(roster[1..], id);
      if rest < 0 then -1 else rest + 1
  }

  method DriverIndex(roster: seq<string>, id: string) returns (r: int)
    ensures r == IndexOf(roster, id)
  {
    for i := 0 to |roster|
      invariant forall j :: 0 <= j < i ==> roster[j] != id
    {
      if roster[i] == id { return i; }
    }
    r := -1;
  }
}
