/** The string operations the statement builders rely on: JavaScript's
    `Array.prototype.join`, its partner `String.prototype.split`, and counting
    occurrences of a character (used to count `?` placeholders). */
module Strings {
  import opened Options

  /** `parts.join(sep)`: the parts in order, `sep` between neighbours, "" for no parts. */
  function Join(parts: seq<string>, sep: string): string
  {
    if |parts| == 0 then ""
    else if |parts| == 1 then parts[0]
    else parts[0] + sep + Join(parts[1..], sep)
  }

  /** How many times `c` occurs in `s`. */
  function Occurrences(s: string, c: char): nat
  {
    if |s| == 0 then 0 else (if s[0] == c then 1 else 0) + Occurrences(s[1..], c)
  }

  /** Occurrences of `c` summed over all parts. */
  function OccurrencesAll(parts: seq<string>, c: char): nat
  {
    if |parts| == 0 then 0 else Occurrences(parts[0], c) + OccurrencesAll(parts[1..], c)
  }

  /** Joining adds exactly the separators' occurrences to those of the parts. */
  lemma {:induction false} OccurrencesJoin(parts: seq<string>, sep: string, c: char)
    requires |parts| > 0
    ensures Occurrences(Join(parts, sep), c)
            == OccurrencesAll(parts, c) + (|parts| - 1) * Occurrences(sep, c)
  {
    if |parts| > 1 {
      var rest := Join(parts[1..], sep);
      OccurrencesJoin(parts[1..], sep, c);
      OccurrencesAppend(parts[0], sep, c);
      OccurrencesAppend(parts[0] + sep, rest, c);
      MultiplySucc(|parts| - 2, Occurrences(sep, c));
    }
  }

  /** Occurrences in a concatenation add up. */
  lemma {:induction false} OccurrencesAppend(a: string, b: string, c: char)
    ensures Occurrences(a + b, c) == Occurrences(a, c) + Occurrences(b, c)
  {
    if |a| == 0 {
      assert a + b == b;
    } else {
      assert (a + b)[1..] == a[1..] + b;
      OccurrencesAppend(a[1..], b, c);
    }
  }

  lemma OccurrencesAppend3(a: string, b: string, d: string, c: char)
    ensures Occurrences(a + b + d, c) == Occurrences(a, c) + Occurrences(b, c) + Occurrences(d, c)
  {
    OccurrencesAppend(a, b, c);
    OccurrencesAppend(a + b, d, c);
  }

  /** Text fixed around three interpolated pieces adds no occurrences of a character
      it does not contain. */
  lemma OccurrencesBetween(k0: string, x: string, k1: string, y: string, k2: string, z: string,
                           k3: string, c: char)
    requires c !in k0 && c !in k1 && c !in k2 && c !in k3
    ensures Occurrences(k0 + x + k1 + y + k2 + z + k3, c)
            == Occurrences(x, c) + Occurrences(y, c) + Occurrences(z, c)
  {
    OccurrencesAbsent(k0, c);
    OccurrencesAbsent(k1, c);
    OccurrencesAbsent(k2, c);
    OccurrencesAbsent(k3, c);
    OccurrencesAppend3(k0, x, k1, c);
    OccurrencesAppend3(k0 + x + k1, y, k2, c);
    OccurrencesAppend3(k0 + x + k1 + y + k2, z, k3, c);
  }

  /** A character that does not occur has no occurrences. */
  lemma {:induction false} OccurrencesAbsent(s: string, c: char)
    requires c !in s
    ensures Occurrences(s, c) == 0
  {
    if |s| > 0 {
      assert forall x :: x in s[1..] ==> x in s;
      OccurrencesAbsent(s[1..], c);
    }
  }

  lemma MultiplySucc(n: nat, k: nat)
    ensures (n + 1) * k == n * k + k
  {
  }

  /** `sep` occurs in `s` starting at position `k`. */
  predicate MatchesAt(s: string, sep: string, k: nat)
  {
    k + |sep| <= |s| && s[k..k + |sep|] == sep
  }

  /** Dropping the first character shifts every match one position left. */
  lemma MatchesAtTail(s: string, sep: string, k: nat)
    requires |s| > 0
    ensures MatchesAt(s, sep, k + 1) <==> MatchesAt(s[1..], sep, k)
  {
  }

  /** The first position at which `sep` occurs in `s`: `s.indexOf(sep)`. */
  function IndexOf(s: string, sep: string): (r: Option<nat>)
    requires |sep| > 0
    ensures r.Some? ==> MatchesAt(s, sep, r.value)
    ensures r.Some? ==> forall k: nat :: k < r.value ==> !MatchesAt(s, sep, k)
    ensures r.None? ==> forall k: nat :: !MatchesAt(s, sep, k)
    decreases |s|
  {
    if |s| < |sep| then None
    else if s[..|sep|] == sep then Some(0)
    else
      match IndexOf(s[1..], sep)
      case None =>
        assert forall k: nat :: MatchesAt(s, sep, k + 1) ==> MatchesAt(s[1..], sep, k) by {
          forall k: nat ensures MatchesAt(s, sep, k + 1) ==> MatchesAt(s[1..], sep, k) {
            MatchesAtTail(s, sep, k);
          }
        }
        assert forall k: nat :: !MatchesAt(s, sep, k) by {
          forall k: nat ensures !MatchesAt(s, sep, k) {
            if k > 0 { MatchesAtTail(s, sep, k - 1); }
          }
        }
        None
      case Some(j) =>
        MatchesAtTail(s, sep, j);
        assert forall k: nat :: k < j + 1 ==> !MatchesAt(s, sep, k) by {
          forall k: nat | k < j + 1 ensures !MatchesAt(s, sep, k) {
            if k > 0 { MatchesAtTail(s, sep, k - 1); }
          }
        }
        Some(j + 1)
  }

  /** `s.split(sep)`: the pieces of `s` between successive occurrences of `sep`. */
  function Split(s: string, sep: string): (r: seq<string>)
    requires |sep| > 0
    ensures |r| > 0
    decreases |s|
  {
    match IndexOf(s, sep)
    case None => [s]
    case Some(i) => [s[..i]] + Split(s[i + |sep|..], sep)
  }

  /** A separator whose first character is absent from `a` is first found right after `a`. */
  lemma {:induction false} IndexOfAfter(a: string, sep: string, b: string)
    requires |sep| > 0 && sep[0] !in a
    ensures IndexOf(a + sep + b, sep) == Some(|a|)
  {
    var s := a + sep + b;
    assert s[|a|..|a| + |sep|] == sep;
    assert MatchesAt(s, sep, |a|);
    forall k: nat | k < |a|
      ensures !MatchesAt(s, sep, k)
    {
      assert s[k] == a[k];
    }
  }

  /** A separator whose first character is absent from `s` is not found. */
  lemma {:induction false} IndexOfAbsent(s: string, sep: string)
    requires |sep| > 0 && sep[0] !in s
    ensures IndexOf(s, sep) == None
  {
  }

  /** Splitting undoes joining when no part contains the separator's first character. */
  lemma {:induction false} SplitJoin(parts: seq<string>, sep: string)
    requires |parts| > 0 && |sep| > 0
    requires forall i :: 0 <= i < |parts| ==> sep[0] !in parts[i]
    ensures Split(Join(parts, sep), sep) == parts
  {
    if |parts| == 1 {
      IndexOfAbsent(parts[0], sep);
    } else {
      var rest := Join(parts[1..], sep);
      IndexOfAfter(parts[0], sep, rest);
      var s := parts[0] + sep + rest;
      assert s[..|parts[0]|] == parts[0];
      assert s[|parts[0]| + |sep|..] == rest;
      SplitJoin(parts[1..], sep);
      assert [parts[0]] + parts[1..] == parts;
    }
  }
}
