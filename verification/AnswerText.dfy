/** Text normalisation used by the answer contract (agent/ask_workflow.py:215-216 and the calls
    of `strip` there). Which characters are blank and how one folds are parameters. */
module AnswerText {

  /** `space`: stripped from the ends. `fold`: case folding of a character, letters and digits only. */
  datatype Alphabet = Alphabet(space: char -> bool, fold: char -> string)

  function StripLeft(t: Alphabet, s: string): (r: string)
    ensures r == "" || !t.space(r[0])
    ensures |r| <= |s| && r == s[|s| - |r|..]
  {
    if s == "" || !t.space(s[0]) then s else StripLeft(t, s[1..])
  }

  function StripRight(t: Alphabet, s: string): (r: string)
    ensures r == "" || !t.space(r[|r| - 1])
    ensures r <= s
  {
    if s == "" || !t.space(s[|s| - 1]) then s else StripRight(t, s[..|s| - 1])
  }

  function Strip(t: Alphabet, s: string): string {
    StripRight(t, StripLeft(t, s))
  }

  ghost predicate AllBlank(t: Alphabet, s: string) {
    forall i :: 0 <= i < |s| ==> t.space(s[i])
  }

  lemma {:induction false} LeftIsBlank(t: Alphabet, s: string)
    ensures AllBlank(t, s[..|s| - |StripLeft(t, s)|])
  {
    if s != "" && t.space(s[0]) {
      LeftIsBlank(t, s[1..]);
      assert forall i :: 1 <= i < |s| ==> s[i] == s[1..][i - 1];
    }
  }

  lemma {:induction false} RightIsBlank(t: Alphabet, s: string)
    ensures AllBlank(t, s[|StripRight(t, s)|..])
  {
    if s != "" && t.space(s[|s| - 1]) {
      RightIsBlank(t, s[..|s| - 1]);
    }
  }

  /** `r` is `s` without blanks at its ends. */
  ghost predicate Stripped(t: Alphabet, s: string, r: string) {
    && (exists a, b :: s == a + r + b && AllBlank(t, a) && AllBlank(t, b))
    && (r != "" ==> !t.space(r[0]) && !t.space(r[|r| - 1]))
  }

  lemma CutBothEnds(t: Alphabet, s: string, left: string, r: string)
    requires |left| <= |s| && left == s[|s| - |left|..] && AllBlank(t, s[..|s| - |left|])
    requires r <= left && AllBlank(t, left[|r|..])
    requires left != "" ==> !t.space(left[0])
    requires r != "" ==> !t.space(r[|r| - 1])
    ensures Stripped(t, s, r)
  {
    var a, b := s[..|s| - |left|], left[|r|..];
    assert left == r + b;
    assert s == a + (r + b) == a + r + b;
  }

  /** Stripping removes blanks from the ends, and nothing else, until neither end is blank. */
  lemma StripIs(t: Alphabet, s: string)
    ensures Stripped(t, s, Strip(t, s))
  {
    LeftIsBlank(t, s);
    RightIsBlank(t, StripLeft(t, s));
    CutBothEnds(t, s, StripLeft(t, s), Strip(t, s));
  }

  /** Stripping twice is stripping once. */
  lemma StripIdempotent(t: Alphabet, s: string)
    ensures Strip(t, Strip(t, s)) == Strip(t, s)
  {
    var left := StripLeft(t, s);
    var r := StripRight(t, left);
    assert r != "" ==> r[0] == left[0];
    assert StripLeft(t, r) == r;
    assert StripRight(t, r) == r;
  }

  /** The identity of a claim: what is left after folding. */
  function Identity(t: Alphabet, s: string): string {
    if s == "" then "" else t.fold(s[0]) + Identity(t, s[1..])
  }

  lemma {:induction false} IdentityOfJoin(t: Alphabet, a: string, b: string)
    ensures Identity(t, a + b) == Identity(t, a) + Identity(t, b)
  {
    if a == "" {
      assert a + b == b;
    } else {
      assert (a + b)[1..] == a[1..] + b;
      IdentityOfJoin(t, a[1..], b);
    }
  }

  /** With the join above: every character is folded, in order. */
  lemma IdentityOfChar(t: Alphabet, c: char)
    ensures Identity(t, [c]) == t.fold(c) && Identity(t, "") == ""
  {
    assert [c][1..] == "";
  }

  /** `part in whole` for strings. */
  predicate Contains(whole: string, part: string) {
    part <= whole || (whole != "" && Contains(whole[1..], part))
  }

  lemma NotAtStart(a: string, part: string, b: string)
    requires !(part <= a + part + b)
    ensures a != ""
  {
    assert "" + part + b == part + b;
  }

  lemma {:induction false} ContainsIs(whole: string, part: string)
    ensures Contains(whole, part) <==> exists a, b :: whole == a + part + b
  {
    if part <= whole {
      assert whole == "" + part + whole[|part|..];
    } else if whole != "" {
      ContainsIs(whole[1..], part);
      if a, b :| whole[1..] == a + part + b {
        assert whole == ([whole[0]] + a) + part + b;
      }
      if a, b :| whole == a + part + b {
        NotAtStart(a, part, b);
        assert whole[1..] == a[1..] + part + b;
      }
    } else {
      forall a, b ensures whole != a + part + b { assert |a + part + b| == |a| + |part| + |b|; }
    }
  }

  /** A claim that quotes the answer always passes the containment test. */
  lemma QuotesAreContained(t: Alphabet, before: string, claim: string, after: string)
    ensures Contains(Identity(t, before + claim + after), Identity(t, claim))
  {
    IdentityOfJoin(t, before + claim, after);
    IdentityOfJoin(t, before, claim);
    ContainsIs(Identity(t, before + claim + after), Identity(t, claim));
  }

  /** The non-empty ids, each once, in the order in which they first occur. */
  function Unique(ids: seq<string>): (r: seq<string>)
    ensures forall x :: x in r <==> x in ids && x != ""
    ensures forall i, j :: 0 <= i < j < |r| ==> r[i] != r[j]
  {
    if ids == [] then []
    else
      var last := ids[|ids| - 1];
      var before := Unique(ids[..|ids| - 1]);
      assert ids == ids[..|ids| - 1] + [last];
      if last == "" || last in before then before else before + [last]
  }

  /** Of two kept ids, the one that occurs first in the list stands first. */
  lemma {:induction false} UniqueInOrder(ids: seq<string>, i: nat, j: nat, k: nat)
    requires i < j < |Unique(ids)| && k < |ids| && ids[k] == Unique(ids)[j]
    ensures Unique(ids)[i] in ids[..k]
  {
    var last := |ids| - 1;
    var front := ids[..last];
    var before := Unique(front);
    if j < |before| {
      if k < last {
        UniqueInOrder(front, i, j, k);
        assert front[..k] == ids[..k];
      } else {
        assert before[i] in front;
      }
    } else {
      assert before[i] in front;
    }
  }
}
