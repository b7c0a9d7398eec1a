/**
 * Due-time strings: the `'Z'` rewrite done before `datetime.fromisoformat`, and the
 * UTC instant of what the parser returns, a naive reading being taken as UTC.
 */
module IsoTime {
  import opened Wrappers

  /**
   * What `datetime.fromisoformat` yields: a wall-clock reading in microseconds on a
   * fixed scale and, when the string carried one, its UTC offset in microseconds (east
   * positive). Microseconds are `datetime`'s own resolution, so nothing is rounded.
   */
  datatype DateTime = DateTime(wall: int, offset: Option<int>)

  /**
   * The parser, left abstract: None stands for any exception raised while parsing the
   * string or converting the result for display.
   */
  type Parser = string -> Option<DateTime>

  /** The instant a parsed value denotes: an aware value minus its offset, a naive one as UTC. */
  function Utc(dt: DateTime): int
  {
    match dt.offset
    case None => dt.wall
    case Some(off) => dt.wall - off
  }

  /** A naive reading denotes the same instant as that reading at `+00:00`. */
  lemma NaiveReadsAsOffsetZero(wall: int)
    ensures Utc(DateTime(wall, None)) == Utc(DateTime(wall, Some(0)))
  {
  }

  /**
   * One instant written at two offsets is one instant: moving the wall clock and the
   * offset together changes nothing, so comparing aware values compares instants.
   */
  lemma SameInstantAcrossOffsets(wall: int, offset: int, shift: int)
    ensures Utc(DateTime(wall + shift, Some(offset + shift))) == Utc(DateTime(wall, Some(offset)))
  {
  }

  /** Number of occurrences of `c` in `s`. */
  function Occurrences(s: string, c: char): nat
  {
    if s == [] then 0 else (if s[0] == c then 1 else 0) + Occurrences(s[1..], c)
  }

  /** `s.replace('Z', '+00:00')`: every `'Z'`, not only a trailing one. */
  function ReplaceZ(s: string): (r: string)
    ensures 'Z' !in r
    ensures |r| == |s| + 5 * Occurrences(s, 'Z')
  {
    if s == [] then []
    else (if s[0] == 'Z' then "+00:00" else [s[0]]) + ReplaceZ(s[1..])
  }

  /** The rewrite works character by character, so it distributes over concatenation. */
  lemma {:induction false} ReplaceZConcat(a: string, b: string)
    ensures ReplaceZ(a + b) == ReplaceZ(a) + ReplaceZ(b)
    decreases |a|
  {
    if a == [] {
      assert a + b == b;
    } else {
      assert (a + b)[0] == a[0] && (a + b)[1..] == a[1..] + b;
      ReplaceZConcat(a[1..], b);
    }
  }

  /** A string without `'Z'` reaches the parser unchanged. */
  lemma {:induction false} ReplaceZKeepsZFree(s: string)
    requires 'Z' !in s
    ensures ReplaceZ(s) == s
    decreases |s|
  {
    if s != [] {
      ReplaceZKeepsZFree(s[1..]);
      assert s == [s[0]] + s[1..];
    }
  }

  /** A lone `Z` becomes exactly the UTC offset. */
  lemma ReplaceZOfZ()
    ensures ReplaceZ("Z") == "+00:00"
  {
    assert "Z"[1..] == [];
  }

  /** Rewriting twice is rewriting once. */
  lemma ReplaceZIdempotent(s: string)
    ensures ReplaceZ(ReplaceZ(s)) == ReplaceZ(s)
  {
    ReplaceZKeepsZFree(ReplaceZ(s));
  }

  /** The parser cannot tell an upper-case `Z` anywhere in the string from `+00:00` there. */
  lemma ZReadsAsUtcOffset(before: string, after: string)
    ensures ReplaceZ(before + "Z" + after) == ReplaceZ(before + "+00:00" + after)
  {
    var utc := "+00:00";
    ReplaceZOfZ();
    ReplaceZKeepsZFree(utc);
    calc {
      ReplaceZ(before + "Z" + after);
    == { ReplaceZConcat(before + "Z", after); ReplaceZConcat(before, "Z"); }
      ReplaceZ(before) + utc + ReplaceZ(after);
    == { ReplaceZConcat(before + utc, after); ReplaceZConcat(before, utc); }
      ReplaceZ(before + utc + after);
    }
  }
}
