/** Character-substitution tables applied the way the Python code applies them:
    one `str.replace(key, substitute)` per entry, in the dict's order. */
module CharTable {
  import Text

  /** The entries of a substitution dict, in iteration order. */
  type Table = seq<(char, char)>

  /** `for k, v in table.items(): s = s.replace(k, v)`. */
  function ReplaceInOrder(s: string, t: Table): (r: string)
    ensures |r| == |s|
    decreases |t|
  {
    if |t| == 0 then s else ReplaceInOrder(Text.ReplaceChar(s, t[0].0, t[0].1), t[1..])
  }

  /** The substitute of `c`: the value of the first entry keyed by `c`, or `c`
      itself when no entry is. */
  function Lookup(t: Table, c: char): char
    decreases |t|
  {
    if |t| == 0 then c else if t[0].0 == c then t[0].1 else Lookup(t[1..], c)
  }

  /** Every code point replaced by its substitute, independently of the others. */
  function Translate(s: string, t: Table): (r: string)
    ensures |r| == |s|
    ensures forall i :: 0 <= i < |s| ==> r[i] == Lookup(t, s[i])
  {
    seq(|s|, i requires 0 <= i < |s| => Lookup(t, s[i]))
  }

  /** No entry's substitute is the key of a later entry, so a later `replace`
      never rewrites what an earlier one produced. */
  predicate NoChaining(t: Table) {
    forall i, j :: 0 <= i < j < |t| ==> t[i].1 != t[j].0
  }

  predicate DistinctKeys(t: Table) {
    forall i, j :: 0 <= i < j < |t| ==> t[i].0 != t[j].0
  }

  /** A substitute that is also a key belongs to an identity entry (`"&": "&"`). */
  predicate SubstitutesFixed(t: Table) {
    forall i, j :: 0 <= i < |t| && 0 <= j < |t| && t[i].1 == t[j].0 ==> t[j].1 == t[j].0
  }

  /** A code point that keys no entry is left alone. */
  lemma {:induction false} LookupNonKey(t: Table, c: char)
    requires forall i :: 0 <= i < |t| ==> t[i].0 != c
    ensures Lookup(t, c) == c
    decreases |t|
  {
    if |t| > 0 {
      LookupNonKey(t[1..], c);
    }
  }

  /** With distinct keys, the key of entry `i` becomes that entry's substitute. */
  lemma {:induction false} LookupKey(t: Table, i: nat)
    requires DistinctKeys(t)
    requires i < |t|
    ensures Lookup(t, t[i].0) == t[i].1
    decreases |t|
  {
    if i > 0 {
      assert t[0].0 != t[i].0;
      LookupKey(t[1..], i - 1);
    }
  }

  /** The substitute of `c` is `c` itself or the substitute of an entry keyed by `c`. */
  lemma {:induction false} LookupCases(t: Table, c: char)
    ensures Lookup(t, c) == c || exists i :: 0 <= i < |t| && t[i].0 == c && t[i].1 == Lookup(t, c)
    decreases |t|
  {
    if |t| > 0 && t[0].0 != c {
      LookupCases(t[1..], c);
      if Lookup(t, c) != c {
        var i :| 0 <= i < |t| - 1 && t[1..][i].0 == c && t[1..][i].1 == Lookup(t, c);
        assert t[i + 1].0 == c;
      }
    }
  }

  /** Applying the entries one after another is the same as translating each
      code point on its own, as long as no substitute is a later key. */
  lemma {:induction false} ReplaceInOrderIsTranslate(s: string, t: Table)
    requires NoChaining(t)
    ensures ReplaceInOrder(s, t) == Translate(s, t)
    decreases |t|
  {
    if |t| > 0 {
      var t' := t[1..];
      var s' := Text.ReplaceChar(s, t[0].0, t[0].1);
      assert NoChaining(t');
      ReplaceInOrderIsTranslate(s', t');
      forall i | 0 <= i < |s|
        ensures Lookup(t', s'[i]) == Lookup(t, s[i])
      {
        if s[i] == t[0].0 {
          LookupNonKey(t', t[0].1);
        }
      }
    }
  }

  /** A substitute is its own substitute. */
  lemma LookupIdempotent(t: Table, c: char)
    requires SubstitutesFixed(t)
    ensures Lookup(t, Lookup(t, c)) == Lookup(t, c)
  {
    LookupCases(t, c);
    LookupCases(t, Lookup(t, c));
  }

  /** Translating twice is translating once. */
  lemma TranslateIdempotent(s: string, t: Table)
    requires SubstitutesFixed(t)
    ensures Translate(Translate(s, t), t) == Translate(s, t)
  {
    forall i | 0 <= i < |s|
      ensures Translate(Translate(s, t), t)[i] == Translate(s, t)[i]
    {
      LookupIdempotent(t, s[i]);
    }
  }

  /** The key of a non-identity entry never survives translation. */
  lemma TranslateAvoidsKey(s: string, t: Table, k: nat)
    requires SubstitutesFixed(t) && DistinctKeys(t)
    requires k < |t| && t[k].0 != t[k].1
    ensures t[k].0 !in Translate(s, t)
  {
    if t[k].0 in Translate(s, t) {
      var i :| 0 <= i < |s| && Translate(s, t)[i] == t[k].0;
      LookupIdempotent(t, s[i]);
      LookupKey(t, k);
    }
  }

  /** Neither side of any entry is whitespace. */
  predicate SpaceFree(t: Table) {
    forall i :: 0 <= i < |t| ==> !Text.IsSpace(t[i].0) && !Text.IsSpace(t[i].1)
  }

  /** With a whitespace-free table, a code point and its substitute are
      whitespace alike. */
  lemma {:induction false} LookupKeepsSpace(t: Table, c: char)
    requires SpaceFree(t)
    ensures Text.IsSpace(Lookup(t, c)) <==> Text.IsSpace(c)
    decreases |t|
  {
    if |t| > 0 && t[0].0 != c {
      assert SpaceFree(t[1..]) by {
        forall i | 0 <= i < |t| - 1
          ensures !Text.IsSpace(t[1..][i].0) && !Text.IsSpace(t[1..][i].1)
        {
          assert t[1..][i] == t[i + 1];
        }
      }
      LookupKeepsSpace(t[1..], c);
    }
  }

  /** No key of a non-identity entry survives translation. */
  lemma TranslateAvoidsMovedKeys(s: string, t: Table)
    requires SubstitutesFixed(t) && DistinctKeys(t)
    ensures forall k :: 0 <= k < |t| && t[k].0 != t[k].1 ==> t[k].0 !in Translate(s, t)
  {
    forall k | 0 <= k < |t| && t[k].0 != t[k].1
      ensures t[k].0 !in Translate(s, t)
    {
      TranslateAvoidsKey(s, t, k);
    }
  }

  /** Translating with a whitespace-free table keeps a trimmed string trimmed. */
  lemma TranslateKeepsTrimmed(s: string, t: Table)
    requires SpaceFree(t)
    requires |s| == 0 || (!Text.IsSpace(s[0]) && !Text.IsSpace(s[|s| - 1]))
    ensures var r := Translate(s, t); |r| == 0 || (!Text.IsSpace(r[0]) && !Text.IsSpace(r[|r| - 1]))
  {
    if |s| > 0 {
      LookupKeepsSpace(t, s[0]);
      LookupKeepsSpace(t, s[|s| - 1]);
    }
  }
}
