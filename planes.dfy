/**
 The record store: an ordered list of plane records, grown only by appending
 (`add_plane`) and queried by an order-preserving filter on the aircraft type
 (`select_planes`).
 */
module Planes {
  import opened Wrappers

  /**
   One flight record: destination, flight number and aircraft type. A record
   read back from the data file may lack any of the three keys, so each field
   is optional; the renderer and the filter read a missing field as `''`.
   */
  datatype Plane = Plane(destination: Option<string>, num: Option<int>, typ: Option<string>)

  /** The record `add_plane` builds: all three keys present. */
  function NewPlane(destination: string, num: int, typ: string): Plane {
    Plane(Some(destination), Some(num), Some(typ))
  }

  /** `plane.get('typ', '')`. */
  function TypOf(p: Plane): string {
    p.typ.GetOr("")
  }

  /** The Python list object holding the records; `add_plane` appends to it in place. */
  class PlaneList {
    var items: seq<Plane>

    constructor (items: seq<Plane>)
      ensures this.items == items
    {
      this.items := items;
    }
  }

  /**
   `add_plane`: appends the new record to the list it is given and returns
   that very list, not a copy.
   */
  method AddPlane(staff: PlaneList, destination: string, num: int, typ: string) returns (r: PlaneList)
    modifies staff
    ensures r == staff
    ensures |staff.items| == |old(staff.items)| + 1
    ensures staff.items[..|old(staff.items)|] == old(staff.items)
    ensures staff.items[|old(staff.items)|] == NewPlane(destination, num, typ)
    ensures staff.items == AddAll(old(staff.items), [AddArgs(destination, num, typ)])
  {
    staff.items := staff.items + [NewPlane(destination, num, typ)];
    r := staff;
  }

  /** The arguments of one `add` command. */
  datatype AddArgs = AddArgs(destination: string, num: int, typ: string)

  /** The store after `add_plane` has been applied for each of `adds`, in order. */
  function AddAll(staff: seq<Plane>, adds: seq<AddArgs>): seq<Plane> {
    if adds == [] then staff
    else
      var a := adds[|adds| - 1];
      AddAll(staff, adds[..|adds| - 1]) + [NewPlane(a.destination, a.num, a.typ)]
  }

  /**
   After a series of adds the store holds the original records followed by
   one record per add, each carrying exactly the fields passed, in call order.
   */
  lemma {:induction false} AddAllShape(staff: seq<Plane>, adds: seq<AddArgs>)
    ensures |AddAll(staff, adds)| == |staff| + |adds|
    ensures AddAll(staff, adds)[..|staff|] == staff
    ensures forall k :: 0 <= k < |adds| ==>
      AddAll(staff, adds)[|staff| + k] == NewPlane(adds[k].destination, adds[k].num, adds[k].typ)
  {
    if adds != [] {
      var init := adds[..|adds| - 1];
      AddAllShape(staff, init);
      var r := AddAll(staff, adds);
      assert r == AddAll(staff, init) + [NewPlane(adds[|adds| - 1].destination, adds[|adds| - 1].num, adds[|adds| - 1].typ)];
      forall k | 0 <= k < |adds|
        ensures r[|staff| + k] == NewPlane(adds[k].destination, adds[k].num, adds[k].typ)
      {
        if k < |init| {
          assert init[k] == adds[k];
        }
      }
    }
  }

  /**
   One more add on the store that earlier adds produced gives the store of
   all the adds in order: a chain of `add_plane` calls (or of `add` runs, each
   reloading what the previous one saved) computes `AddAll`.
   */
  lemma AddAllSnoc(staff: seq<Plane>, adds: seq<AddArgs>, a: AddArgs)
    ensures AddAll(staff, adds + [a]) == AddAll(AddAll(staff, adds), [a])
  {
  }

  /**
   `select_planes`: the records whose type (`''` when absent) equals `jet`
   exactly, in their original order. Nothing matching gives `[]`, not an error.
   */
  function SelectPlanes(staff: seq<Plane>, jet: string): (r: seq<Plane>)
    ensures |r| <= |staff|
    ensures forall i :: 0 <= i < |r| ==> TypOf(r[i]) == jet
    ensures forall i :: 0 <= i < |staff| && TypOf(staff[i]) == jet ==> staff[i] in r
  {
    if staff == [] then []
    else if TypOf(staff[0]) == jet then [staff[0]] + SelectPlanes(staff[1..], jet)
    else SelectPlanes(staff[1..], jet)
  }

  /** Filtering a concatenation filters each part: the filter keeps relative order. */
  lemma {:induction false} SelectConcat(a: seq<Plane>, b: seq<Plane>, jet: string)
    ensures SelectPlanes(a + b, jet) == SelectPlanes(a, jet) + SelectPlanes(b, jet)
  {
    if a == [] {
      assert a + b == b;
    } else {
      assert (a + b)[0] == a[0];
      assert (a + b)[1..] == a[1..] + b;
      SelectConcat(a[1..], b, jet);
    }
  }

  /** `r` is `s` with some elements dropped and the rest in their original order. */
  ghost predicate IsSubsequence(r: seq<Plane>, s: seq<Plane>) {
    if r == [] then true
    else if s == [] then false
    else if r[0] == s[0] then IsSubsequence(r[1..], s[1..])
    else IsSubsequence(r, s[1..])
  }

  lemma {:induction false} SubsequenceOfTail(r: seq<Plane>, s: seq<Plane>)
    requires s != []
    requires IsSubsequence(r, s[1..])
    ensures IsSubsequence(r, s)
  {
    if r != [] && r[0] == s[0] {
      // the match consumes s[0]; r[1..] is a subsequence of s[1..] since r already is
      var t := s[1..];
      SubsequenceTailMatch(r, t);
    }
  }

  /** A subsequence whose head occurs in `t` stays one after that head is consumed. */
  lemma {:induction false} SubsequenceTailMatch(r: seq<Plane>, t: seq<Plane>)
    requires r != []
    requires IsSubsequence(r, t)
    ensures IsSubsequence(r[1..], t)
  {
    assert t != [];
    if r[0] == t[0] {
      if r[1..] != [] {
        SubsequenceOfTail(r[1..], t);
      }
    } else {
      SubsequenceTailMatch(r, t[1..]);
      SubsequenceOfTail(r[1..], t);
    }
  }

  /** The result of the filter is a subsequence of the store. */
  lemma {:induction false} SelectIsSubsequence(staff: seq<Plane>, jet: string)
    ensures IsSubsequence(SelectPlanes(staff, jet), staff)
  {
    if staff != [] {
      SelectIsSubsequence(staff[1..], jet);
      var rest := SelectPlanes(staff[1..], jet);
      if TypOf(staff[0]) == jet {
        assert ([staff[0]] + rest)[1..] == rest;
      } else if rest != [] {
        SubsequenceOfTail(rest, staff);
      }
    }
  }

  /**
   The filter keeps every occurrence of a matching record and no occurrence of
   any other: it drops nothing that matches.
   */
  lemma {:induction false} SelectCounts(staff: seq<Plane>, jet: string)
    ensures forall p :: multiset(SelectPlanes(staff, jet))[p] ==
                        (if TypOf(p) == jet then multiset(staff)[p] else 0)
  {
    if staff != [] {
      SelectCounts(staff[1..], jet);
      assert staff == [staff[0]] + staff[1..];
      assert multiset(staff) == multiset([staff[0]]) + multiset(staff[1..]);
    }
  }

  /** Selecting again by the same type changes nothing. */
  lemma {:induction false} SelectIdempotent(staff: seq<Plane>, jet: string)
    ensures SelectPlanes(SelectPlanes(staff, jet), jet) == SelectPlanes(staff, jet)
  {
    if staff != [] {
      SelectIdempotent(staff[1..], jet);
      var rest := SelectPlanes(staff[1..], jet);
      if TypOf(staff[0]) == jet {
        assert ([staff[0]] + rest)[1..] == rest;
      }
    }
  }

  /** The result is empty exactly when no record of the store has type `jet`. */
  lemma {:induction false} SelectEmptyIff(staff: seq<Plane>, jet: string)
    ensures SelectPlanes(staff, jet) == [] <==> forall i :: 0 <= i < |staff| ==> TypOf(staff[i]) != jet
  {
    if staff != [] {
      SelectEmptyIff(staff[1..], jet);
      assert forall i :: 1 <= i < |staff| ==> staff[i] == staff[1..][i - 1];
    }
  }

  /** A record without a type is selected exactly by the empty type name. */
  lemma UntypedSelectedByEmptyName(p: Plane, jet: string)
    requires p.typ == None
    ensures SelectPlanes([p], jet) == (if jet == "" then [p] else [])
  {
  }
}
