/** Words that do not occur in a text, whatever is written behind it. */
module Occurrences {
  import opened Text

  /** The word does not occur in the text. */
  predicate Lacks(t: string, word: string) {
    forall i | 0 <= i <= |t| :: !StartsAt(t, i, word)
  }

  ghost predicate MismatchAt(t: string, i: nat, word: string) {
    exists j :: 0 <= j < |word| && i + j < |t| && t[i + j] != word[j]
  }

  /** No occurrence of the word starts in the text, not even one that ends in what follows. */
  ghost predicate Avoids(t: string, word: string) {
    forall i | 0 <= i < |t| :: MismatchAt(t, i, word)
  }

  lemma {:induction false} MismatchStays(a: string, b: string, i: nat, word: string)
    requires MismatchAt(a, i, word)
    ensures MismatchAt(a + b, i, word) && !StartsAt(a + b, i, word)
  {
    var j :| 0 <= j < |word| && i + j < |a| && a[i + j] != word[j];
    assert (a + b)[i + j] == a[i + j];
    StartsAtChar(a + b, i, word, j);
  }

  lemma {:induction false} MismatchShifted(a: string, b: string, i: nat, word: string)
    requires MismatchAt(b, i, word)
    ensures MismatchAt(a + b, |a| + i, word)
  {
    var j :| 0 <= j < |word| && i + j < |b| && b[i + j] != word[j];
    assert (a + b)[|a| + i + j] == b[i + j];
  }

  lemma {:induction false} AvoidsConcat(a: string, b: string, word: string)
    requires Avoids(a, word) && Avoids(b, word)
    ensures Avoids(a + b, word)
  {
    hide MismatchAt;
    forall i | 0 <= i < |a + b|
      ensures MismatchAt(a + b, i, word)
    {
      if i < |a| {
        MismatchStays(a, b, i, word);
      } else {
        MismatchShifted(a, b, i - |a|, word);
      }
    }
  }

  lemma {:induction false} AvoidsWithout(t: string, word: string)
    requires word != "" && Without(t, word[0])
    ensures Avoids(t, word)
  {
    forall i | 0 <= i < |t|
      ensures MismatchAt(t, i, word)
    {
      assert t[i + 0] != word[0];
    }
  }

  lemma {:induction false} Differ(a: string, b: string)
    requires |a| == |b| && a != b
    ensures exists j :: 0 <= j < |a| && a[j] != b[j]
  {
  }

  lemma {:induction false} NotHere(t: string, i: nat, word: string)
    requires !StartsAt(t, i, word) && i + |word| <= |t|
    ensures MismatchAt(t, i, word)
  {
    var u := t[i..i + |word|];
    Differ(u, word);
    var j :| 0 <= j < |u| && u[j] != word[j];
    assert t[i + j] == u[j];
  }

  /** A text that lacks the word and ends with a character that is not in it. */
  lemma {:induction false} AvoidsClosed(t: string, word: string)
    requires Lacks(t, word) && t != "" && Without(word, t[|t| - 1])
    ensures Avoids(t, word)
  {
    forall i | 0 <= i < |t|
      ensures MismatchAt(t, i, word)
    {
      if i + |word| <= |t| {
        NotHere(t, i, word);
      } else {
        var j := |t| - 1 - i;
        assert t[i + j] != word[j];
      }
    }
  }

  lemma {:induction false} AvoidsTail(t: string, k: nat, word: string)
    requires Avoids(t, word) && k <= |t|
    ensures Avoids(t[k..], word)
  {
    forall i | 0 <= i < |t| - k
      ensures MismatchAt(t[k..], i, word)
    {
      assert MismatchAt(t, k + i, word);
      var j :| 0 <= j < |word| && k + i + j < |t| && t[k + i + j] != word[j];
      assert t[k..][i + j] == t[k + i + j];
    }
  }

  lemma {:induction false} NotStarting(a: string, rest: string, i: nat, word: string)
    requires Avoids(a, word) && i < |a|
    ensures !StartsAt(a + rest, i, word)
  {
    hide MismatchAt;
    MismatchStays(a, rest, i, word);
  }

  lemma {:induction false} StartsInTail(head: string, rest: string, k: nat, word: string)
    ensures StartsAt(head + rest, |head| + k, word) <==> StartsAt(rest, k, word)
  {
    if k + |word| <= |rest| {
      assert (head + rest)[|head| + k..|head| + k + |word|] == rest[k..k + |word|];
    }
  }

  lemma {:induction false} LacksBehind(a: string, b: string, word: string)
    requires Avoids(a, word) && Lacks(b, word)
    ensures Lacks(a + b, word)
  {
    hide StartsAt, Avoids;
    forall i | 0 <= i <= |a + b|
      ensures !StartsAt(a + b, i, word)
    {
      if i < |a| {
        NotStarting(a, b, i, word);
      } else {
        StartsInTail(a, b, i - |a|, word);
      }
    }
  }

  lemma {:induction false} LacksNothing(word: string)
    requires word != ""
    ensures Lacks("", word)
  {
  }

  lemma {:induction false} AvoidsLacks(t: string, word: string)
    requires Avoids(t, word) && word != ""
    ensures Lacks(t, word)
  {
    LacksNothing(word);
    LacksBehind(t, "", word);
    assert t + "" == t;
  }

  lemma {:induction false} LacksWithout(t: string, word: string)
    requires word != "" && Without(t, word[0])
    ensures Lacks(t, word)
  {
    AvoidsWithout(t, word);
    AvoidsLacks(t, word);
  }
}
