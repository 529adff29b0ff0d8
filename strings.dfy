/**
 * The few string operations of the Python standard library that the plugin
 * relies on: `str.lower`, `str.replace(old, '', 1)` and `str.split`,
 * restricted to what the plugin does with them.
 */
module Strings {
  import opened Wrappers

  /** `str.lower` on one character, for the ASCII letters that material names and symbols use. */
  function LowerChar(c: char): char
  {
    if 'A' <= c <= 'Z' then (c as int - 'A' as int + 'a' as int) as char else c
  }

  /** `str.lower` on a whole string. */
  function Lower(s: string): string
  {
    seq(|s|, i requires 0 <= i < |s| => LowerChar(s[i]))
  }

  /** Lower-casing is idempotent, so comparing lowered strings is an equivalence that ignores case. */
  lemma LowerIdempotent(s: string)
    ensures Lower(Lower(s)) == Lower(s)
  {
  }

  /** `sub` occurs in `s` starting at index `i`. */
  predicate OccursAt(s: string, sub: string, i: int)
  {
    0 <= i && i + |sub| <= |s| && s[i..i + |sub|] == sub
  }

  /** The first index at or after `from` where `sub` occurs in `s` (`str.find` with a start). */
  function FindFrom(s: string, sub: string, from: nat): (r: Option<nat>)
    ensures r.Some? ==> from <= r.value && OccursAt(s, sub, r.value)
    ensures r.Some? ==> forall j :: from <= j < r.value ==> !OccursAt(s, sub, j)
    ensures r.None? ==> forall j :: from <= j ==> !OccursAt(s, sub, j)
    decreases |s| - from
  {
    if from + |sub| > |s| then None
    else if s[from..from + |sub|] == sub then Some(from)
    else FindFrom(s, sub, from + 1)
  }

  /**
   * `s.replace(sub, '', 1)`: the first occurrence of `sub` is removed, and `s`
   * is returned unchanged when `sub` does not occur.
   */
  function RemoveFirst(s: string, sub: string): (r: string)
    ensures (forall j :: !OccursAt(s, sub, j)) ==> r == s
    ensures forall i :: OccursAt(s, sub, i) && (forall j :: 0 <= j < i ==> !OccursAt(s, sub, j)) ==>
      r == s[..i] + s[i + |sub|..]
  {
    match FindFrom(s, sub, 0)
    case None => s
    case Some(i) => s[..i] + s[i + |sub|..]
  }

  /** Removing a prefix that `s` starts with leaves what follows it. */
  lemma RemoveFirstPrefix(prefix: string, rest: string)
    ensures RemoveFirst(prefix + rest, prefix) == rest
  {
    var s := prefix + rest;
    assert s[0..|prefix|] == prefix;
    assert OccursAt(s, prefix, 0);
  }

  /** The separator of a stored filter, `SYMBOL>=VALUE`. */
  const Separator: string := ">="

  /**
   * `key, value = s.split('>=')`: Python's split cuts at every occurrence, left
   * to right, and the two-way unpacking raises unless there were exactly two
   * pieces, i.e. exactly one occurrence. `None` stands for that exception.
   */
  function SplitPair(s: string): (r: Option<(string, string)>)
    ensures r.Some? ==> s == r.value.0 + Separator + r.value.1
    ensures r.Some? ==> forall j :: !OccursAt(r.value.0, Separator, j) && !OccursAt(r.value.1, Separator, j)
    ensures r.None? ==> (forall j :: !OccursAt(s, Separator, j)) ||
                        (exists i, j :: i < j && OccursAt(s, Separator, i) && OccursAt(s, Separator, j))
  {
    match FindFrom(s, Separator, 0)
    case None => None
    case Some(i) =>
      match FindFrom(s, Separator, i + 2)
      case Some(k) => None
      case None =>
        var key, value := s[..i], s[i + 2..];
        assert s == key + Separator + value;
        assert forall j :: OccursAt(key, Separator, j) ==> OccursAt(s, Separator, j) by {
          forall j | OccursAt(key, Separator, j) ensures OccursAt(s, Separator, j) {
            assert s[j..j + 2] == key[j..j + 2];
          }
        }
        assert forall j :: OccursAt(value, Separator, j) ==> OccursAt(s, Separator, j + i + 2) by {
          forall j | OccursAt(value, Separator, j) ensures OccursAt(s, Separator, j + i + 2) {
            assert s[j + i + 2..j + i + 4] == value[j..j + 2];
          }
        }
        Some((key, value))
  }

  /** Joining a key and a value that hold no `>` with the separator and splitting again gives them back. */
  lemma SplitPairJoin(key: string, value: string)
    requires '>' !in key && '>' !in value
    ensures SplitPair(key + Separator + value) == Some((key, value))
  {
    var s := key + Separator + value;
    var n := |key|;
    assert s[n..n + 2] == Separator;
    forall j | 0 <= j < n || n < j
      ensures !OccursAt(s, Separator, j)
    {
      if j + 2 <= |s| {
        assert s[j..j + 2][0] == s[j];
        if j < n {
          assert s[j] == key[j];
        } else if j == n + 1 {
          assert s[j] == '=';
        } else {
          assert s[j] == value[j - n - 2];
        }
      }
    }
    assert OccursAt(s, Separator, n);
    var first := FindFrom(s, Separator, 0);
    assert first == Some(n);
    assert FindFrom(s, Separator, n + 2).None?;
    assert s[..n] == key && s[n + 2..] == value;
  }
}
