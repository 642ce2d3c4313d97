/** The few Ruby core operations the y2start parser relies on:
    `Array#first`, `Array#shift`, `String#[0]` and string interpolation of
    a possibly-nil value. */
module RubyArray {
  import opened Wrappers

  /** `Array#first`: the head of the list, or nil when it is empty. */
  function First(s: seq<string>): (r: Option<string>)
    ensures r.None? <==> s == []
    ensures r.Some? ==> r.value == s[0]
  {
    if |s| == 0 then None else Some(s[0])
  }

  /** `String#[0]`: the first character as a one-character string, or nil
      for the empty string. */
  function CharAt0(s: string): (r: Option<string>)
    ensures r.None? <==> s == ""
    ensures r.Some? ==> r.value == [s[0]]
  {
    if |s| == 0 then None else Some(s[..1])
  }

  /** What `Array#shift` leaves behind: the list without its head, and the
      empty list when there is no head. */
  function Rest(s: seq<string>): (r: seq<string>)
    ensures |r| == if s == [] then 0 else |s| - 1
    ensures forall i :: 0 <= i < |r| ==> r[i] == s[i + 1]
  {
    if s == [] then [] else s[1..]
  }

  /** `"#{x}"`: nil interpolates to the empty string. */
  function Interpolate(x: Option<string>): (r: string)
    ensures x.Some? ==> r == x.value
    ensures x.None? ==> r == ""
  {
    match x
    case None => ""
    case Some(s) => s
  }

  /** `s` is a (possibly empty) trailing part of `t`. */
  predicate IsSuffix(s: seq<string>, t: seq<string>)
  {
    |s| <= |t| && s == t[|t| - |s|..]
  }

  lemma SuffixTransitive(s: seq<string>, t: seq<string>, u: seq<string>)
    requires IsSuffix(s, t) && IsSuffix(t, u)
    ensures IsSuffix(s, u)
  {
    assert u[|u| - |t|..][|t| - |s|..] == u[|u| - |s|..];
  }

  /** A Ruby `Array` of strings that the parser consumes in place: `items`
      is the array's contents from front to back. */
  class ArgList {
    var items: seq<string>

    constructor (items: seq<string>)
      ensures this.items == items
    {
      this.items := items;
    }

    /** `args.first` */
    function Peek(): (r: Option<string>)
      reads this
      ensures r == First(items)
    {
      First(items)
    }

    /** `args.shift`: removes and returns the head; on an empty array it
        returns nil and leaves the array empty. */
    method Shift() returns (head: Option<string>)
      modifies this
      ensures head == First(old(items))
      ensures items == Rest(old(items))
    {
      if |items| == 0 {
        head := None;
      } else {
        head := Some(items[0]);
        items := items[1..];
      }
    }
  }
}
