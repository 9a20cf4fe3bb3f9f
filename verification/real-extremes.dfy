/** The least and the greatest of some numbers. */
module RealExtremes {

  function Least(s: seq<real>): (r: real)
    requires s != []
    ensures r in s && forall i :: 0 <= i < |s| ==> r <= s[i]
  {
    var n := |s| - 1;
    if n == 0 then s[0]
    else if Least(s[..n]) <= s[n] then Least(s[..n]) else s[n]
  }

  function Greatest(s: seq<real>): (r: real)
    requires s != []
    ensures r in s && forall i :: 0 <= i < |s| ==> s[i] <= r
  {
    var n := |s| - 1;
    if n == 0 then s[0]
    else if Greatest(s[..n]) >= s[n] then Greatest(s[..n]) else s[n]
  }
}
