/**
 * ASCII text helpers shared by the miner's classifiers and the web views:
 * lower-casing (String.prototype.toLowerCase restricted to ASCII) and the
 * substring test of String.prototype.includes.
 */
module Text {

  predicate IsUpper(c: char) { 'A' <= c <= 'Z' }

  predicate IsDigit(c: char) { '0' <= c <= '9' }

  /** ASCII lower-casing of one character; every other character is kept. */
  function LowerChar(c: char): char
  {
    if IsUpper(c) then (c as int + 32) as char else c
  }

  /** `s.toLowerCase()` on ASCII text. */
  function Lower(s: string): (r: string)
    ensures |r| == |s|
    ensures forall i :: 0 <= i < |s| ==> r[i] == LowerChar(s[i])
    ensures forall i :: 0 <= i < |r| ==> !IsUpper(r[i])
  {
    if s == [] then [] else [LowerChar(s[0])] + Lower(s[1..])
  }

  /** Lower-casing twice is lower-casing once. */
  lemma {:induction false} LowerIdempotent(s: string)
    ensures Lower(Lower(s)) == Lower(s)
  {
    if s != [] {
      LowerIdempotent(s[1..]);
      assert Lower(s)[1..] == Lower(s[1..]);
    }
  }

  /** Text without upper-case letters is its own lower-case form. */
  lemma {:induction false} LowerOfLower(s: string)
    requires forall i :: 0 <= i < |s| ==> !IsUpper(s[i])
    ensures Lower(s) == s
  {
    if s != [] {
      LowerOfLower(s[1..]);
    }
  }

  /** `w` is a prefix of `s`, compared character by character. */
  predicate IsPrefix(w: string, s: string)
  {
    w == [] || (s != [] && s[0] == w[0] && IsPrefix(w[1..], s[1..]))
  }

  /** `w` occurs in `s` starting at position `i`. */
  predicate OccursAt(s: string, w: string, i: int)
  {
    0 <= i && i + |w| <= |s| && s[i..i + |w|] == w
  }

  lemma {:induction false} IsPrefixIff(w: string, s: string)
    ensures IsPrefix(w, s) <==> |w| <= |s| && s[..|w|] == w
  {
    if w != [] && s != [] {
      IsPrefixIff(w[1..], s[1..]);
      if |w| <= |s| && s[..|w|] == w {
        assert s[1..][..|w[1..]|] == w[1..];
      }
      if IsPrefix(w, s) {
        assert s[..|w|] == [s[0]] + s[1..][..|w[1..]|];
      }
    }
  }

  /** `s.includes(w)`: `w` occurs in `s` at some position (the empty word occurs everywhere). */
  predicate Contains(s: string, w: string)
  {
    IsPrefix(w, s) || (s != [] && Contains(s[1..], w))
  }

  /** A slice of the tail is the slice of the whole one position further on. */
  lemma TailSlice(s: string, i: nat, j: nat)
    requires i <= j < |s|
    ensures s[1..][i..j] == s[i + 1..j + 1]
  {
    forall k | 0 <= k < j - i ensures s[1..][i..j][k] == s[i + 1..j + 1][k] {
    }
  }

  /** The recursive scan finds exactly the positions where `w` occurs. */
  lemma {:induction false} ContainsAt(s: string, w: string)
    ensures Contains(s, w) <==> exists i :: OccursAt(s, w, i)
  {
    IsPrefixIff(w, s);
    assert IsPrefix(w, s) <==> OccursAt(s, w, 0);
    if s != [] {
      ContainsAt(s[1..], w);
      if Contains(s[1..], w) {
        var i :| OccursAt(s[1..], w, i);
        TailSlice(s, i, i + |w|);
        assert OccursAt(s, w, i + 1);
      }
      if i :| OccursAt(s, w, i) {
        if i > 0 {
          TailSlice(s, i - 1, i - 1 + |w|);
          assert OccursAt(s[1..], w, i - 1);
        }
      }
    } else {
      if i :| OccursAt(s, w, i) {
        assert w == [];
      }
    }
  }

  /** An occurrence at a known position is found by the scan. */
  lemma ContainsWitness(s: string, w: string, i: int)
    requires OccursAt(s, w, i)
    ensures Contains(s, w)
  {
    ContainsAt(s, w);
  }

  /** `words.some(w => a.includes(w) || b.includes(w))`. */
  predicate MentionsAny(words: seq<string>, a: string, b: string)
  {
    words != [] && (Contains(a, words[0]) || Contains(b, words[0]) || MentionsAny(words[1..], a, b))
  }

  /** The `some` scan holds exactly when one listed word occurs in either text. */
  lemma {:induction false} MentionsAnyIff(words: seq<string>, a: string, b: string)
    ensures MentionsAny(words, a, b) <==> exists w :: w in words && (Contains(a, w) || Contains(b, w))
  {
    if words != [] {
      MentionsAnyIff(words[1..], a, b);
      if w :| w in words && (Contains(a, w) || Contains(b, w)) {
        if w != words[0] {
          assert w in words[1..];
        }
      }
    }
  }

  /** A word of the list that occurs in the first text is enough for the `some` scan. */
  lemma {:induction false} MentionsWitness(words: seq<string>, a: string, b: string, j: nat)
    requires j < |words| && Contains(a, words[j])
    ensures MentionsAny(words, a, b)
  {
    if j > 0 {
      MentionsWitness(words[1..], a, b, j - 1);
    }
  }
}
