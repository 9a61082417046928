/** The pieces of Go's text handling the tool depends on: `unicode.IsSpace`,
    `strings.Fields` and `strings.Contains`, over strings of Unicode scalar
    values. */
module Text {

  /** Go's `unicode.IsSpace`: the six ASCII spaces, NEL, NBSP and the Unicode
      space separators. */
  predicate IsSpace(c: char) {
    || c == ' ' || c == '\t' || c == '\n' || c == '\r' || c == '\U{B}' || c == '\U{C}'
    || c == '\U{85}' || c == '\U{A0}' || c == '\U{1680}'
    || ('\U{2000}' <= c <= '\U{200A}')
    || c == '\U{2028}' || c == '\U{2029}' || c == '\U{202F}' || c == '\U{205F}' || c == '\U{3000}'
  }

  predicate NoSpace(s: string) {
    forall i :: 0 <= i < |s| ==> !IsSpace(s[i])
  }

  /** A token as `strings.Fields` produces it: non-empty, free of whitespace. */
  predicate IsToken(t: string) {
    |t| > 0 && NoSpace(t)
  }

  predicate AllTokens(ts: seq<string>) {
    forall i :: 0 <= i < |ts| ==> IsToken(ts[i])
  }

  /** Scans `s` left to right; `cur` is the token read so far. */
  function FieldsFrom(s: string, cur: string): seq<string>
    decreases |s|
  {
    if |s| == 0 then
      (if |cur| == 0 then [] else [cur])
    else if IsSpace(s[0]) then
      (if |cur| == 0 then [] else [cur]) + FieldsFrom(s[1..], [])
    else
      FieldsFrom(s[1..], cur + [s[0]])
  }

  /** `strings.Fields`: the maximal runs of non-space characters of `s`, in order. */
  function Fields(s: string): seq<string> {
    FieldsFrom(s, [])
  }

  /** The tokens written back to back. */
  function Flatten(ts: seq<string>): string {
    if |ts| == 0 then [] else ts[0] + Flatten(ts[1..])
  }

  /** `s` with every whitespace character deleted. */
  function RemoveSpaces(s: string): string {
    if |s| == 0 then [] else (if IsSpace(s[0]) then [] else [s[0]]) + RemoveSpaces(s[1..])
  }

  /** `strings.Join(ts, " ")`. */
  function JoinSpaced(ts: seq<string>): string {
    if |ts| == 0 then [] else if |ts| == 1 then ts[0] else ts[0] + " " + JoinSpaced(ts[1..])
  }

  /** `strings.Contains(s, sub)`. */
  predicate Contains(s: string, sub: string)
    decreases |s|
  {
    sub <= s || (|s| > 0 && Contains(s[1..], sub))
  }

  /** `sub` occurs in `s` starting at offset `i`. */
  predicate OccursAt(s: string, sub: string, i: nat) {
    i + |sub| <= |s| && s[i..i + |sub|] == sub
  }

  /** `Contains` agrees with the textbook definition: `sub` occurs in `s` at
      some offset. */
  lemma {:induction false} ContainsIsInfix(s: string, sub: string)
    ensures Contains(s, sub) <==> exists i: nat :: OccursAt(s, sub, i)
    decreases |s|
  {
    if sub <= s {
      assert OccursAt(s, sub, 0);
    } else if |s| > 0 {
      ContainsIsInfix(s[1..], sub);
      if exists i: nat :: OccursAt(s, sub, i) {
        var i: nat :| OccursAt(s, sub, i);
        if i > 0 {
          assert s[1..][i - 1..i - 1 + |sub|] == sub;
          assert OccursAt(s[1..], sub, i - 1);
        }
      }
      if Contains(s[1..], sub) {
        var i: nat :| OccursAt(s[1..], sub, i);
        assert s[i + 1..i + 1 + |sub|] == sub;
        assert OccursAt(s, sub, i + 1);
      }
    } else {
      assert |sub| > 0;
    }
  }

  lemma {:induction false} FieldsFromAreTokens(s: string, cur: string)
    requires NoSpace(cur)
    ensures AllTokens(FieldsFrom(s, cur))
    decreases |s|
  {
    if |s| == 0 {
    } else if IsSpace(s[0]) {
      FieldsFromAreTokens(s[1..], []);
    } else {
      FieldsFromAreTokens(s[1..], cur + [s[0]]);
    }
  }

  /** Every field is non-empty and holds no whitespace. */
  lemma FieldsAreTokens(s: string)
    ensures AllTokens(Fields(s))
  {
    FieldsFromAreTokens(s, []);
  }

  lemma {:induction false} FlattenAppend(a: seq<string>, b: seq<string>)
    ensures Flatten(a + b) == Flatten(a) + Flatten(b)
    decreases |a|
  {
    if |a| == 0 {
      assert a + b == b;
    } else {
      assert (a + b)[1..] == a[1..] + b;
      FlattenAppend(a[1..], b);
    }
  }

  lemma {:induction false} FieldsFromKeepsNonSpace(s: string, cur: string)
    ensures Flatten(FieldsFrom(s, cur)) == cur + RemoveSpaces(s)
    decreases |s|
  {
    if |s| == 0 {
    } else if IsSpace(s[0]) {
      var head: seq<string> := if |cur| == 0 then [] else [cur];
      FlattenAppend(head, FieldsFrom(s[1..], []));
      FieldsFromKeepsNonSpace(s[1..], []);
      assert Flatten(head) == cur;
    } else {
      FieldsFromKeepsNonSpace(s[1..], cur + [s[0]]);
    }
  }

  /** Splitting into fields loses exactly the whitespace: the fields, written
      back to back, are the input with its whitespace deleted. */
  lemma FieldsKeepNonSpace(s: string)
    ensures Flatten(Fields(s)) == RemoveSpaces(s)
  {
    FieldsFromKeepsNonSpace(s, []);
  }

  lemma {:induction false} FieldsFromSkipsWord(w: string, rest: string, cur: string)
    requires NoSpace(w)
    ensures FieldsFrom(w + rest, cur) == FieldsFrom(rest, cur + w)
    decreases |w|
  {
    if |w| == 0 {
      assert w + rest == rest;
      assert cur + w == cur;
    } else {
      assert (w + rest)[0] == w[0];
      assert (w + rest)[1..] == w[1..] + rest;
      FieldsFromSkipsWord(w[1..], rest, cur + [w[0]]);
      assert cur + [w[0]] + w[1..] == cur + w;
    }
  }

  lemma {:induction false} FieldsFromSplitAtSpace(a: string, sp: char, b: string, cur: string)
    requires IsSpace(sp)
    ensures FieldsFrom(a + [sp] + b, cur) == FieldsFrom(a, cur) + FieldsFrom(b, [])
    decreases |a|
  {
    var head: seq<string> := if |cur| == 0 then [] else [cur];
    if |a| == 0 {
      assert a + [sp] + b == [sp] + b;
      assert ([sp] + b)[1..] == b;
    } else {
      assert (a + [sp] + b)[0] == a[0];
      assert (a + [sp] + b)[1..] == a[1..] + [sp] + b;
      if IsSpace(a[0]) {
        FieldsFromSplitAtSpace(a[1..], sp, b, []);
        assert head + (FieldsFrom(a[1..], []) + FieldsFrom(b, []))
            == (head + FieldsFrom(a[1..], [])) + FieldsFrom(b, []);
      } else {
        FieldsFromSplitAtSpace(a[1..], sp, b, cur + [a[0]]);
      }
    }
  }

  /** Fields never run across whitespace: splitting at a whitespace character
      and taking the fields of each side gives the fields of the whole. With
      `FieldsOfJoinSpaced` on one token this fixes where the fields split. */
  lemma FieldsSplitAtSpace(a: string, sp: char, b: string)
    requires IsSpace(sp)
    ensures Fields(a + [sp] + b) == Fields(a) + Fields(b)
  {
    FieldsFromSplitAtSpace(a, sp, b, []);
  }

  /** Splitting inverts joining with single spaces, for any list of tokens. */
  lemma {:induction false} FieldsOfJoinSpaced(ts: seq<string>)
    requires AllTokens(ts)
    ensures Fields(JoinSpaced(ts)) == ts
    decreases |ts|
  {
    if |ts| == 0 {
    } else if |ts| == 1 {
      assert ts[0] + [] == ts[0];
      FieldsFromSkipsWord(ts[0], [], []);
      assert [] + ts[0] == ts[0];
    } else {
      var rest := JoinSpaced(ts[1..]);
      assert JoinSpaced(ts) == ts[0] + (" " + rest);
      FieldsFromSkipsWord(ts[0], " " + rest, []);
      assert [] + ts[0] == ts[0];
      assert (" " + rest)[1..] == rest;
      FieldsOfJoinSpaced(ts[1..]);
      assert ts == [ts[0]] + ts[1..];
    }
  }
}
