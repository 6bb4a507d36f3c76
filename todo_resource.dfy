/**
 * The wire form of a Todo and the constraints bean validation places on it:
 * the title must be non-empty and at most 30 long, where length is counted
 * as the JVM counts a string's length, in UTF-16 code units.
 */
module Resource {
  import opened Wrappers
  import opened Entity

  /** The resource: the same four fields as a Todo, with the same defaults. */
  datatype TodoResource = TodoResource(
    todoId: Option<int> := None,
    todoTitle: string := "",
    finished: bool := false,
    createdAt: Option<Timestamp> := None
  )

  /** The `max` of the title's size constraint. */
  const MAX_TITLE_LENGTH: nat := 30

  /**
   * The length of `s` in UTF-16 code units: a character outside the Basic
   * Multilingual Plane is stored as a surrogate pair and counts twice.
   */
  function Utf16Length(s: string): (n: nat)
    ensures |s| <= n <= 2 * |s|
    ensures n == 0 <==> s == []
  {
    if s == [] then 0
    else (if s[0] as int >= 0x1_0000 then 2 else 1) + Utf16Length(s[1..])
  }

  /** A title made only of Basic Multilingual Plane characters is as long in UTF-16 as in characters. */
  lemma {:induction false} Utf16LengthOfBmp(s: string)
    requires forall i :: 0 <= i < |s| ==> s[i] as int < 0x1_0000
    ensures Utf16Length(s) == |s|
  {
    if s != [] {
      assert forall i :: 0 <= i < |s[1..]| ==> s[1..][i] == s[i + 1];
      Utf16LengthOfBmp(s[1..]);
    }
  }

  /** `@NotEmpty` and `@Size(max = 30)` on the title; the other fields carry no constraint. */
  predicate IsValid(r: TodoResource): (b: bool)
    ensures b <==> r.todoTitle != [] && Utf16Length(r.todoTitle) <= MAX_TITLE_LENGTH
  {
    0 < Utf16Length(r.todoTitle) <= MAX_TITLE_LENGTH
  }

  /** A valid resource has a title of one to 30 characters. */
  lemma ValidTitleBounds(r: TodoResource)
    ensures IsValid(r) ==> 0 < |r.todoTitle| <= MAX_TITLE_LENGTH
  {
  }

  /**
   * For titles of Basic Multilingual Plane characters, validity is exactly
   * "one to 30 characters"; any title of one to 15 characters is valid.
   */
  lemma ValidTitleExactly(r: TodoResource)
    ensures (forall i :: 0 <= i < |r.todoTitle| ==> r.todoTitle[i] as int < 0x1_0000) ==>
      (IsValid(r) <==> 0 < |r.todoTitle| <= MAX_TITLE_LENGTH)
    ensures 0 < |r.todoTitle| <= MAX_TITLE_LENGTH / 2 ==> IsValid(r)
  {
    if forall i :: 0 <= i < |r.todoTitle| ==> r.todoTitle[i] as int < 0x1_0000 {
      Utf16LengthOfBmp(r.todoTitle);
    }
  }

  /** Validity depends on the title alone. */
  lemma ValidityIgnoresOtherFields(r: TodoResource, id: Option<int>, f: bool, c: Option<Timestamp>)
    ensures IsValid(r.(todoId := id, finished := f, createdAt := c)) == IsValid(r)
  {
  }

  /**
   * A resource built with no arguments has no id, is unfinished, has no
   * creation time and an empty title, so it is not valid.
   */
  lemma DefaultResource()
    ensures TodoResource().todoId == None
    ensures !TodoResource().finished
    ensures TodoResource().createdAt == None
    ensures TodoResource().todoTitle == ""
    ensures !IsValid(TodoResource())
  {
  }
}
