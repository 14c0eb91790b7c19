/** Values shared by the modules of the model. */
module Wrappers {
  datatype Option<+T> = None | Some(value: T)
  datatype Result<+T, +E> = Ok(value: T) | Err(error: E)
}

/** JavaScript whitespace and `trim`. */
module Text {
  predicate IsSpace(c: char) {
    var n := c as int;
    || 0x09 <= n <= 0x0D || n == 0x20 || n == 0xA0 || n == 0x1680 || 0x2000 <= n <= 0x200A
    || n == 0x2028 || n == 0x2029 || n == 0x202F || n == 0x205F || n == 0x3000 || n == 0xFEFF
  }

  function TrimStart(s: string): string {
    if s != [] && IsSpace(s[0]) then TrimStart(s[1..]) else s
  }

  function TrimEnd(s: string): string {
    if s != [] && IsSpace(s[|s| - 1]) then TrimEnd(s[..|s| - 1]) else s
  }

  function Trim(s: string): string {
    TrimEnd(TrimStart(s))
  }

  predicate Blank(s: string) {
    forall i :: 0 <= i < |s| ==> IsSpace(s[i])
  }

  /** `t` is `s` without the white space at its ends. */
  ghost predicate IsTrimOf(t: string, s: string) {
    exists before: string, after: string ::
      s == before + t + after && Blank(before) && Blank(after)
      && (t != "" ==> !IsSpace(t[0]) && !IsSpace(t[|t| - 1]))
  }

  lemma {:induction false} TrimStartExactly(s: string) returns (before: string)
    ensures s == before + TrimStart(s) && Blank(before)
    ensures TrimStart(s) != "" ==> !IsSpace(TrimStart(s)[0])
  {
    if s != [] && IsSpace(s[0]) {
      before := TrimStartExactly(s[1..]);
      before := [s[0]] + before;
    } else {
      before := "";
    }
  }

  lemma {:induction false} TrimEndExactly(s: string) returns (after: string)
    ensures s == TrimEnd(s) + after && Blank(after)
    ensures TrimEnd(s) != "" ==> !IsSpace(TrimEnd(s)[|TrimEnd(s)| - 1])
  {
    if s != [] && IsSpace(s[|s| - 1]) {
      after := TrimEndExactly(s[..|s| - 1]);
      after := after + [s[|s| - 1]];
    } else {
      after := "";
    }
  }

  lemma TrimExactly(s: string)
    ensures IsTrimOf(Trim(s), s)
    ensures Trim(s) == "" <==> Blank(s)
  {
    var before := TrimStartExactly(s);
    var after := TrimEndExactly(TrimStart(s));
    var t := Trim(s);
    assert s == before + t + after;
    if t == "" {
      assert s == before + after;
    } else {
      assert t[0] == TrimStart(s)[0] && s[|before|] == t[0];
    }
  }
}

/** Points in time, in milliseconds, and lists without repetition. */
module Shared {
  /** Readings of a clock that does not run backwards. */
  predicate Ascending(times: seq<int>, from: int) {
    times == [] || (from <= times[0] && Ascending(times[1..], times[0]))
  }

  /** Math.ceil(ms / 1000). */
  function CeilSeconds(ms: int): int {
    (ms + 999) / 1000
  }

  predicate NoRepeats<T(==)>(s: seq<T>) {
    forall i, j :: 0 <= i < j < |s| ==> s[i] != s[j]
  }

  function One(b: bool): nat { if b then 1 else 0 }
}
