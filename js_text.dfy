/**
 * The JavaScript string operations the pipeline relies on, over `string` (a `seq<char>`):
 * `includes`, `endsWith`, `replace(/\0/g, '')`, `join` and `split` on a one-character separator.
 */
module JsText {

  /** `t` occurs in `s` starting at offset `k`. */
  predicate OccursAt(s: string, t: string, k: nat) {
    k + |t| <= |s| && s[k..k + |t|] == t
  }

  /** `s.includes(t)`: `t` occurs in `s` at some offset. */
  predicate Includes(s: string, t: string) {
    exists k: nat | k <= |s| :: OccursAt(s, t, k)
  }

  /** `s.endsWith(t)` */
  predicate EndsWith(s: string, t: string) {
    |t| <= |s| && s[|s| - |t|..] == t
  }

  lemma EndsWithImpliesIncludes(s: string, t: string)
    requires EndsWith(s, t)
    ensures Includes(s, t)
  {
    assert OccursAt(s, t, |s| - |t|);
  }

  /** Every string includes the empty string. */
  lemma IncludesEmpty(s: string)
    ensures Includes(s, "")
  {
    assert OccursAt(s, "", 0);
  }

  /** `s.replace(/\0/g, '')`: drop every NUL character. */
  function StripNul(s: string): (r: string)
    ensures forall i :: 0 <= i < |r| ==> r[i] != '\0'
    ensures |r| <= |s|
  {
    if s == [] then []
    else (if s[0] == '\0' then "" else [s[0]]) + StripNul(s[1..])
  }

  /** Stripping leaves a NUL-free string exactly as it was, and changes every other one. */
  lemma {:induction false} StripNulIdentity(s: string)
    ensures StripNul(s) == s <==> '\0' !in s
  {
    if s != [] {
      StripNulIdentity(s[1..]);
      if s[0] == '\0' {
        assert |StripNul(s)| <= |s[1..]| < |s|;
      } else {
        assert s == [s[0]] + s[1..];
      }
    }
  }

  /** Stripping works piecewise: it never joins or splits characters across a boundary. */
  lemma {:induction false} StripNulConcat(a: string, b: string)
    ensures StripNul(a + b) == StripNul(a) + StripNul(b)
  {
    if a != [] {
      assert (a + b)[1..] == a[1..] + b;
      StripNulConcat(a[1..], b);
    } else {
      assert a + b == b;
    }
  }

  /** Stripping keeps every non-NUL character with its multiplicity and removes all NULs. */
  lemma {:induction false} StripNulMultiset(s: string)
    ensures multiset(StripNul(s)) == multiset(s)['\0' := 0]
  {
    if s != [] {
      StripNulMultiset(s[1..]);
      assert s == [s[0]] + s[1..];
      assert multiset(s) == multiset{s[0]} + multiset(s[1..]);
    }
  }

  lemma StripNulIdempotent(s: string)
    ensures StripNul(StripNul(s)) == StripNul(s)
  {
    StripNulIdentity(StripNul(s));
  }

  /** `parts.join(sep)`; an empty array joins to the empty string. */
  function Join(parts: seq<string>, sep: string): string {
    if |parts| == 0 then ""
    else if |parts| == 1 then parts[0]
    else parts[0] + sep + Join(parts[1..], sep)
  }

  function StripNulEach(parts: seq<string>): (r: seq<string>)
    ensures |r| == |parts|
    ensures forall i :: 0 <= i < |r| ==> r[i] == StripNul(parts[i])
  {
    if parts == [] then [] else [StripNul(parts[0])] + StripNulEach(parts[1..])
  }

  /** With a NUL-free separator, joining then stripping equals stripping each part then joining. */
  lemma {:induction false} StripNulJoin(parts: seq<string>, sep: string)
    requires '\0' !in sep
    ensures StripNul(Join(parts, sep)) == Join(StripNulEach(parts), sep)
  {
    if |parts| > 1 {
      StripNulJoin(parts[1..], sep);
      StripNulConcat(parts[0] + sep, Join(parts[1..], sep));
      StripNulConcat(parts[0], sep);
      StripNulIdentity(sep);
      assert StripNulEach(parts)[1..] == StripNulEach(parts[1..]);
    }
  }

  /** `s.split(c)` for a one-character separator: the maximal `c`-free pieces, empty ones included. */
  function Split(s: string, c: char): (r: seq<string>)
    ensures |r| >= 1
    ensures forall i :: 0 <= i < |r| ==> c !in r[i]
  {
    if s == [] then [""]
    else
      var rest := Split(s[1..], c);
      if s[0] == c then [""] + rest else [[s[0]] + rest[0]] + rest[1..]
  }

  /** Joining the pieces with the separator gives back the original string. */
  lemma {:induction false} JoinSplit(s: string, c: char)
    ensures Join(Split(s, c), [c]) == s
  {
    if s != [] {
      JoinSplit(s[1..], c);
      var rest := Split(s[1..], c);
      if s[0] == c {
        assert Split(s, c)[1..] == rest;
      } else {
        var r := Split(s, c);
        assert r[1..] == rest[1..];
        if |rest| > 1 {
          assert Join(r, [c]) == [s[0]] + (rest[0] + [c] + Join(rest[1..], [c]));
        }
      }
    }
  }

  lemma {:induction false} SplitNoSeparator(s: string, c: char)
    requires c !in s
    ensures Split(s, c) == [s]
  {
    if s != [] {
      SplitNoSeparator(s[1..], c);
      assert [s[0]] + s[1..] == s;
    }
  }

  /** A separator after a `c`-free piece closes that piece. */
  lemma {:induction false} SplitAfterPiece(p: string, c: char, t: string)
    requires c !in p
    ensures Split(p + [c] + t, c) == [p] + Split(t, c)
  {
    if p == [] {
      assert p + [c] + t == [c] + t;
      assert ([c] + t)[1..] == t;
    } else {
      assert (p + [c] + t)[1..] == p[1..] + [c] + t;
      SplitAfterPiece(p[1..], c, t);
      assert [p[0]] + p[1..] == p;
    }
  }

  /** Splitting a join of separator-free pieces gives back the pieces. */
  lemma {:induction false} SplitJoin(parts: seq<string>, c: char)
    requires |parts| >= 1
    requires forall i :: 0 <= i < |parts| ==> c !in parts[i]
    ensures Split(Join(parts, [c]), c) == parts
  {
    if |parts| == 1 {
      SplitNoSeparator(parts[0], c);
    } else {
      SplitJoin(parts[1..], c);
      SplitAfterPiece(parts[0], c, Join(parts[1..], [c]));
      assert parts == [parts[0]] + parts[1..];
    }
  }
}
