/** The task record, the value strings the UI offers, the whitespace test
    behind the "empty title" guard, and the two positional edits the
    handlers apply to the task list. */
module Tasks {

  /** One task as the store and the UI exchange it. An `id` of 0 means
      "built locally, store id not known". */
  datatype Task = Task(id: int, title: string, tag: string, status: string)

  /** Status given to every task the Add handler builds. */
  const InitialStatus: string := "Pending"

  /** Tag selected before the user touches the tag picker. */
  const DefaultTag: string := "gameplay"

  /** Option values of the tag picker. */
  const Tags: seq<string> := ["gameplay", "guide", "shorts", "tutorial", "news", "event"]

  /** Option values of the per-task status picker. */
  const Statuses: seq<string> := ["Pending", "In Progress", "Uploaded", "Completed", "On Hold", "Archived"]

  /** Rust's `char::is_whitespace`: the Unicode White_Space property. */
  predicate IsWhitespace(c: char)
  {
    var n := c as int;
    (9 <= n <= 13) || n == 0x20 || n == 0x85 || n == 0xA0 || n == 0x1680
    || (0x2000 <= n <= 0x200A) || n == 0x2028 || n == 0x2029 || n == 0x202F
    || n == 0x205F || n == 0x3000
  }

  /** Every character of `s` is whitespace (the empty string included). */
  predicate IsBlank(s: string)
  {
    forall i :: 0 <= i < |s| ==> IsWhitespace(s[i])
  }

  /** `str::trim_start`: drops the leading whitespace and nothing else. */
  function TrimStart(s: string): (r: string)
    ensures |r| <= |s| && r == s[|s| - |r|..]
    ensures forall i :: 0 <= i < |s| - |r| ==> IsWhitespace(s[i])
    ensures r != [] ==> !IsWhitespace(r[0])
  {
    if s != [] && IsWhitespace(s[0]) then TrimStart(s[1..]) else s
  }

  /** `str::trim_end`: drops the trailing whitespace and nothing else. */
  function TrimEnd(s: string): (r: string)
    ensures |r| <= |s| && r == s[..|r|]
    ensures forall i :: |r| <= i < |s| ==> IsWhitespace(s[i])
    ensures r != [] ==> !IsWhitespace(r[|r| - 1])
  {
    if s != [] && IsWhitespace(s[|s| - 1]) then TrimEnd(s[..|s| - 1]) else s
  }

  /** `str::trim`: the result is the slice of `s` left after dropping
      whitespace at both ends; it neither starts nor ends with whitespace,
      and it is empty exactly when `s` is blank. */
  function Trim(s: string): (r: string)
    ensures exists a, b :: 0 <= a <= b <= |s| && r == s[a..b] && IsBlank(s[..a]) && IsBlank(s[b..])
    ensures r == [] <==> IsBlank(s)
    ensures r != [] ==> !IsWhitespace(r[0]) && !IsWhitespace(r[|r| - 1])
  {
    var u := TrimStart(s);
    var a := |s| - |u|;
    var r := TrimEnd(u);
    assert r == s[a..a + |r|];
    var tail := s[a + |r|..];
    assert IsBlank(tail) by {
      forall i | 0 <= i < |tail| ensures IsWhitespace(tail[i]) {
        assert tail[i] == u[|r| + i];
      }
    }
    r
  }

  /** The list after the task at `idx` got `status`; it stays where it is. */
  function WithStatus(s: seq<Task>, idx: nat, status: string): (r: seq<Task>)
    requires idx < |s|
    ensures |r| == |s|
    ensures r[idx].status == status
    ensures r[idx].id == s[idx].id && r[idx].title == s[idx].title && r[idx].tag == s[idx].tag
    ensures forall i :: 0 <= i < |s| && i != idx ==> r[i] == s[i]
  {
    s[idx := s[idx].(status := status)]
  }

  /** `Vec::remove`: the list without position `idx`; what follows it moves
      up one place, so the survivors keep their relative order. */
  function RemoveAt<T>(s: seq<T>, idx: nat): (r: seq<T>)
    requires idx < |s|
    ensures |r| == |s| - 1
    ensures forall i :: 0 <= i < idx ==> r[i] == s[i]
    ensures forall i :: idx <= i < |r| ==> r[i] == s[i + 1]
  {
    s[..idx] + s[idx + 1..]
  }

  /** Removing one position takes out exactly that element and keeps all others. */
  lemma RemoveAtMultiset<T>(s: seq<T>, idx: nat)
    requires idx < |s|
    ensures multiset(RemoveAt(s, idx)) + multiset{s[idx]} == multiset(s)
  {
    assert s == s[..idx] + [s[idx]] + s[idx + 1..];
  }

  /** Writing a status that is already there changes nothing; so writing the
      same status twice is the same as writing it once. */
  lemma WithStatusIdempotent(s: seq<Task>, idx: nat, status: string)
    requires idx < |s|
    ensures s[idx].status == status ==> WithStatus(s, idx, status) == s
    ensures WithStatus(WithStatus(s, idx, status), idx, status) == WithStatus(s, idx, status)
  {
  }
}
