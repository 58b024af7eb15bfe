/** The recipe form of the save action: the comma-separated ingredient text
    becomes a list of ingredient names, and the name and day fields are
    validated before anything is written (main.py, `save_recipe`). */
module Form {
  import opened Seqs
  import opened Text
  import opened Days

  /** What a parsed ingredient looks like: non-empty, no whitespace at
      either end, no comma inside. Every ingredient row the application
      writes has such a name. */
  predicate IsIngredientName(s: string)
  {
    s != [] && IsStripped(s) && ',' !in s
  }

  /** `[p.strip() for p in pieces if p.strip()]`. */
  function KeepStripped(pieces: seq<string>): (r: seq<string>)
    ensures |r| <= |pieces|
    ensures forall k :: 0 <= k < |r| ==> r[k] != [] && IsStripped(r[k])
  {
    if pieces == [] then []
    else
      var t := Strip(pieces[0]);
      (if t == [] then [] else [t]) + KeepStripped(pieces[1..])
  }

  lemma {:induction false} KeepStrippedAppend(p: seq<string>, q: seq<string>)
    ensures KeepStripped(p + q) == KeepStripped(p) + KeepStripped(q)
  {
    if p == [] {
      assert p + q == q;
    } else {
      assert (p + q)[0] == p[0] && (p + q)[1..] == p[1..] + q;
      var t := Strip(p[0]);
      KeepStrippedAppend(p[1..], q);
      AppendAssoc(if t == [] then [] else [t], KeepStripped(p[1..]), KeepStripped(q));
    }
  }

  lemma SliceKeepsOut(s: string, a: nat, b: nat, c: char)
    requires a <= b <= |s| && c !in s
    ensures c !in s[a..b]
  {
    forall k | 0 <= k < b - a ensures s[a..b][k] != c {
      assert s[a..b][k] == s[a + k];
    }
  }

  /** Stripping never introduces a character. */
  lemma StripKeepsOut(s: string, c: char)
    requires c !in s
    ensures c !in Strip(s)
  {
    var t := TrimStart(s);
    SliceKeepsOut(s, |s| - |t|, |s|, c);
    SliceKeepsOut(t, 0, |TrimEnd(t)|, c);
  }

  /** No piece of `ps` contains `c`. */
  predicate NoneHolds(ps: seq<string>, c: char)
  {
    forall k :: 0 <= k < |ps| ==> c !in ps[k]
  }

  lemma NoneHoldsAppend(a: seq<string>, b: seq<string>, c: char)
    requires NoneHolds(a, c) && NoneHolds(b, c)
    ensures NoneHolds(a + b, c)
  {
    forall k | 0 <= k < |a + b| ensures c !in (a + b)[k] {
      if k < |a| { assert (a + b)[k] == a[k]; } else { assert (a + b)[k] == b[k - |a|]; }
    }
  }

  lemma NoneHoldsTail(a: seq<string>, c: char)
    requires a != [] && NoneHolds(a, c)
    ensures NoneHolds(a[1..], c) && c !in a[0]
  {
    forall k | 0 <= k < |a| - 1 ensures c !in a[1..][k] {
      assert a[1..][k] == a[k + 1];
    }
  }

  lemma {:induction false} KeepStrippedKeepsOut(pieces: seq<string>, c: char)
    requires NoneHolds(pieces, c)
    ensures NoneHolds(KeepStripped(pieces), c)
  {
    if pieces != [] {
      var t := Strip(pieces[0]);
      NoneHoldsTail(pieces, c);
      StripKeepsOut(pieces[0], c);
      KeepStrippedKeepsOut(pieces[1..], c);
      NoneHoldsAppend(if t == [] then [] else [t], KeepStripped(pieces[1..]), c);
    }
  }

  /** The ingredient list of the save form: the text split on commas, each
      piece stripped, empty pieces dropped. Every resulting name is a
      non-empty, stripped, comma-free string. */
  function ParseIngredients(text: string): (r: seq<string>)
    ensures forall k :: 0 <= k < |r| ==> IsIngredientName(r[k])
  {
    var pieces := Split(text, ',');
    KeepStrippedKeepsOut(pieces, ',');
    KeepStripped(pieces)
  }

  /** Text without a comma yields its stripped self, or nothing when it is
      blank. */
  lemma ParseOnePiece(s: string)
    requires ',' !in s
    ensures ParseIngredients(s) == if AllSpace(s) then [] else [Strip(s)]
  {
    SplitWithoutSep(s, ',');
    StripEmpty(s);
    assert [s][1..] == [];
  }

  /** Order is kept: the names of the text before a comma all come before
      the names of the text after it. Together with `ParseOnePiece` this
      determines `ParseIngredients` completely. */
  lemma ParseAroundComma(a: string, b: string)
    ensures ParseIngredients(a + [','] + b) == ParseIngredients(a) + ParseIngredients(b)
  {
    SplitAround(a, b, ',');
    KeepStrippedAppend(Split(a, ','), Split(b, ','));
  }

  lemma BlankHasNoComma(w: string)
    requires AllSpace(w)
    ensures ',' !in w
  {
    forall k | 0 <= k < |w| ensures w[k] != ',' { assert IsSpace(w[k]); }
  }

  /** A single ingredient name behind blanks parses to itself. */
  lemma ParseNameAfterSpace(w: string, x: string)
    requires AllSpace(w) && IsIngredientName(x)
    ensures ParseIngredients(w + x) == [x]
  {
    BlankHasNoComma(w);
    assert ',' !in w + x;
    ParseOnePiece(w + x);
    StripAfterSpace(w, x);
    StripStripped(x);
    StripEmpty(w + x);
  }

  /** Parsing undoes the `", ".join(...)` of the edit form: a list of
      ingredient names shown in the form is read back unchanged. The blank
      prefix `w` covers the space that `", "` leaves in front of every name
      but the first. */
  lemma {:induction false} ParseJoinAfterSpace(w: string, xs: seq<string>)
    requires AllSpace(w)
    requires forall k :: 0 <= k < |xs| ==> IsIngredientName(xs[k])
    ensures ParseIngredients(w + Join(xs, ", ")) == xs
    decreases xs
  {
    if xs == [] {
      assert w + Join(xs, ", ") == w;
      BlankHasNoComma(w);
      ParseOnePiece(w);
    } else if |xs| == 1 {
      ParseNameAfterSpace(w, xs[0]);
    } else {
      assert AllSpace(" ");
      ParseJoinAfterSpace(" ", xs[1..]);
      ParseJoinStep(w, xs);
    }
  }

  lemma CommaSpace(w: string, a: string, b: string)
    ensures w + (a + ", " + b) == (w + a) + [','] + (" " + b)
  {
  }

  lemma ParseJoinStep(w: string, xs: seq<string>)
    requires AllSpace(w) && |xs| >= 2 && IsIngredientName(xs[0])
    requires ParseIngredients(" " + Join(xs[1..], ", ")) == xs[1..]
    ensures ParseIngredients(w + Join(xs, ", ")) == xs
  {
    var rest := Join(xs[1..], ", ");
    assert Join(xs, ", ") == xs[0] + ", " + rest;
    CommaSpace(w, xs[0], rest);
    ParseAroundComma(w + xs[0], " " + rest);
    ParseNameAfterSpace(w, xs[0]);
    assert [xs[0]] + xs[1..] == xs;
  }

  lemma ParseJoin(xs: seq<string>)
    requires forall k :: 0 <= k < |xs| ==> IsIngredientName(xs[k])
    ensures ParseIngredients(Join(xs, ", ")) == xs
  {
    ParseJoinAfterSpace([], xs);
    assert [] + Join(xs, ", ") == Join(xs, ", ");
  }

  /** The guard of the save action, `not name or day not in DAYS` negated:
      the name field must hold a non-whitespace character and the day must
      be one of the seven. */
  function FormAccepted(nameText: string, day: string): (ok: bool)
    ensures ok <==> !AllSpace(nameText) && day in DAYS
  {
    StripEmpty(nameText);
    Strip(nameText) != [] && day in DAYS
  }
}
