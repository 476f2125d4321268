/** How the components of a relative path lead from one directory to another. */
module Paths {

  /** A directory is the list of names that lead to it from the root; `..` goes up, `.` and "" stay. */
  function Enter(at: seq<string>, part: string): seq<string> {
    if part == ".." then (if at == [] then at else at[..|at|-1])
    else if part == "." || part == "" then at
    else at + [part]
  }

  /** Where the components lead, one after the other. */
  function Resolve(from: seq<string>, parts: seq<string>): seq<string> {
    if parts == [] then from else Enter(Resolve(from, parts[..|parts|-1]), parts[|parts|-1])
  }

  /** No step of the way is outside the directory it started in. */
  ghost predicate StaysBelow(from: seq<string>, parts: seq<string>) {
    forall k | 0 <= k <= |parts| :: from <= Resolve(from, parts[..k])
  }

  /** Every component is entered as a name. */
  predicate AllNames(parts: seq<string>) {
    forall k | 0 <= k < |parts| :: parts[k] !in ["", ".", ".."]
  }

  lemma {:induction false} ResolveIsShort(from: seq<string>, parts: seq<string>)
    ensures |Resolve(from, parts)| <= |from| + |parts|
  {
    if parts != [] {
      ResolveIsShort(from, parts[..|parts|-1]);
    }
  }

  lemma {:induction false} NamesAreEntered(from: seq<string>, parts: seq<string>)
    requires AllNames(parts)
    ensures Resolve(from, parts) == from + parts
  {
    if parts != [] {
      NamesAreEntered(from, parts[..|parts|-1]);
      assert parts == parts[..|parts|-1] + [parts[|parts|-1]];
    }
  }

  lemma {:induction false} EnteredAreNames(from: seq<string>, parts: seq<string>)
    requires |Resolve(from, parts)| == |from| + |parts|
    ensures AllNames(parts)
  {
    if parts != [] {
      ResolveIsShort(from, parts[..|parts|-1]);
      EnteredAreNames(from, parts[..|parts|-1]);
    }
  }

  /** A path of names never leaves the directory it starts in, and ends exactly its components below. */
  lemma NamesStayBelow(from: seq<string>, parts: seq<string>)
    requires AllNames(parts)
    ensures Resolve(from, parts) == from + parts && StaysBelow(from, parts)
  {
    NamesAreEntered(from, parts);
    forall k | 0 <= k <= |parts|
      ensures from <= Resolve(from, parts[..k])
    {
      NamesAreEntered(from, parts[..k]);
    }
  }

  /** And only paths of names end there. */
  lemma EndsBelowExactly(from: seq<string>, parts: seq<string>)
    ensures AllNames(parts) <==> Resolve(from, parts) == from + parts
  {
    if AllNames(parts) {
      NamesAreEntered(from, parts);
    } else if Resolve(from, parts) == from + parts {
      EnteredAreNames(from, parts);
    }
  }
}
