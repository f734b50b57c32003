/** The medicine description field of the add and edit forms: description,
    ingredients and usage are stored as one text, joined with section markers,
    and split back into the three form fields when the edit form is shown. */
module MedicineDescription {
  import opened Models
  import opened Strings

  /** The markers the split searches for. */
  const IngredientsMarker: string := "\n\nIngredients:"
  const UsageMarker: string := "\n\nUsage:"

  /** The three form fields. */
  datatype Parts = Parts(description: string, ingredients: string, usage: string)

  /** The stored text: the description, then each non-empty section after its
      marker and one space. */
  function Compose(description: string, ingredients: string, usage: string): (full: string)
    ensures ingredients == [] && usage == [] ==> full == description
    ensures |full| >= |description| && full[..|description|] == description
  {
    description
    + (if ingredients != [] then IngredientsMarker + " " + ingredients else [])
    + (if usage != [] then UsageMarker + " " + usage else [])
  }

  /** The form fields recovered from the stored text (a missing description is ''). */
  function Split(stored: Option<string>): (r: Parts)
    ensures stored.None? ==> r == Parts([], [], [])
    ensures !Contains(stored.GetOr([]), IngredientsMarker) && !Contains(stored.GetOr([]), UsageMarker)
            ==> r == Parts(stored.GetOr([]), [], [])
    ensures IsStripped(r.ingredients) && IsStripped(r.usage)
  {
    StripIsStrippedAll();
    var description := stored.GetOr([]);
    if Contains(description, IngredientsMarker) then
      var remaining := SplitSecond(description, IngredientsMarker);
      if Contains(remaining, UsageMarker) then
        Parts(SplitHead(description, IngredientsMarker),
              Strip(SplitHead(remaining, UsageMarker)),
              Strip(SplitSecond(remaining, UsageMarker)))
      else
        Parts(SplitHead(description, IngredientsMarker), Strip(remaining), [])
    else if Contains(description, UsageMarker) then
      Parts(SplitHead(description, UsageMarker), [], Strip(SplitSecond(description, UsageMarker)))
    else
      Parts(description, [], [])
  }

  lemma StripIsStrippedAll()
    ensures forall s :: IsStripped(Strip(s))
  {
    forall s ensures IsStripped(Strip(s)) { StripIsStripped(s); }
  }

  /** A marker: two newlines and then at least one character that is not a newline. */
  predicate IsMarker(m: string) {
    |m| >= 3 && m[0] == '\n' && m[1] == '\n' && forall j :: 2 <= j < |m| ==> m[j] != '\n'
  }

  /** Both markers are markers, and they differ at their first letter. */
  lemma MarkersDiffer()
    ensures IsMarker(IngredientsMarker) && IsMarker(UsageMarker) && IngredientsMarker[2] != UsageMarker[2]
  {
  }

  predicate NoNewline(s: string) {
    forall j :: 0 <= j < |s| ==> s[j] != '\n'
  }

  /** An occurrence in `a + b` at or after `|a|` is an occurrence in `b`. */
  lemma ShiftedOccurrence(a: string, b: string, m: string, k: nat)
    ensures IsAt(a + b, m, |a| + k) <==> IsAt(b, m, k)
  {
    if |a| + k + |m| <= |a + b| {
      assert (a + b)[|a| + k..|a| + k + |m|] == b[k..k + |m|];
    }
  }

  /** An occurrence in `a + b` that ends inside `a` is an occurrence in `a`. */
  lemma PrefixOccurrence(a: string, b: string, m: string, k: nat)
    requires k + |m| <= |a|
    ensures IsAt(a + b, m, k) <==> IsAt(a, m, k)
  {
    assert (a + b)[k..k + |m|] == a[k..k + |m|];
  }

  /** One mismatching character rules out an occurrence. */
  lemma Mismatch(s: string, m: string, k: nat, i: nat)
    requires i < |m| && k + i < |s| && s[k + i] != m[i]
    ensures !IsAt(s, m, k)
  {
    if k + |m| <= |s| {
      assert s[k..k + |m|][i] == s[k + i];
    }
  }

  /** A marker cannot start inside `a` and end inside `b` when `b` starts with two newlines. */
  lemma NoStraddle(a: string, b: string, m: string, k: nat)
    requires IsMarker(m) && |b| >= 2 && b[0] == '\n' && b[1] == '\n'
    requires !Contains(a, m) && k < |a|
    ensures !IsAt(a + b, m, k)
  {
    if k + |m| <= |a| {
      PrefixOccurrence(a, b, m, k);
    } else if |a| - k == 1 {
      Mismatch(a + b, m, k, 2);
    } else {
      Mismatch(a + b, m, k, |a| - k);
    }
  }

  /** With nothing found in either part, nothing is found in `a + b`. */
  lemma NotInConcat(a: string, b: string, m: string)
    requires IsMarker(m) && |b| >= 2 && b[0] == '\n' && b[1] == '\n'
    requires !Contains(a, m) && !Contains(b, m)
    ensures !Contains(a + b, m)
  {
    forall k: nat | k <= |a + b| ensures !IsAt(a + b, m, k) {
      if k < |a| {
        NoStraddle(a, b, m, k);
      } else {
        ShiftedOccurrence(a, b, m, k - |a|);
        assert !IsAt(b, m, k - |a|);
      }
    }
  }

  /** When `b` starts with the marker and `a` holds none, the first occurrence is at the seam. */
  lemma FindAtSeam(a: string, b: string, m: string)
    requires IsMarker(m) && IsAt(b, m, 0) && !Contains(a, m)
    ensures Contains(a + b, m) && Find(a + b, m) == Some(|a|)
  {
    FindSpec(a + b, m);
    ShiftedOccurrence(a, b, m, 0);
    assert IsAt(a + b, m, |a|);
    assert b[0] == m[0] && b[1] == m[1] by { assert b[..|m|] == m; }
    forall k: nat | k < |a| ensures !IsAt(a + b, m, k) {
      NoStraddle(a, b, m, k);
    }
  }

  /** Split at the first occurrence `k`: `split(m)[0]` is what precedes it,
      `split(m)[1]` what follows it up to the next one. */
  lemma SplitAt(s: string, m: string, k: nat)
    requires m != [] && Find(s, m) == Some(k)
    ensures Contains(s, m) && k + |m| <= |s|
    ensures SplitHead(s, m) == s[..k]
    ensures SplitSecond(s, m) == SplitHead(s[k + |m|..], m)
  {
    FindSpec(s, m);
  }

  /** Cutting `a + b` at the seam gives back `a`, and `b` after its first `n` characters. */
  lemma ConcatSlices(a: string, b: string, n: nat)
    requires n <= |b|
    ensures (a + b)[..|a|] == a && (a + b)[|a| + n..] == b[n..]
  {
  }

  lemma SplitKnown(a: string, b: string, m: string)
    requires m != [] && |m| <= |b| && Find(a + b, m) == Some(|a|)
    ensures Contains(a + b, m) && SplitHead(a + b, m) == a
    ensures SplitSecond(a + b, m) == SplitHead(b[|m|..], m)
  {
    var s := a + b;
    assert Contains(s, m) && SplitHead(s, m) == a by {
      SplitAt(s, m, |a|);
      ConcatSlices(a, b, |m|);
    }
    assert SplitSecond(s, m) == SplitHead(b[|m|..], m) by {
      SplitAt(s, m, |a|);
      ConcatSlices(a, b, |m|);
    }
  }

  /** ... and the split yields `a`, then what follows the marker. */
  lemma SplitAtSeam(a: string, b: string, m: string)
    requires IsMarker(m) && IsAt(b, m, 0) && !Contains(a, m)
    ensures Contains(a + b, m)
    ensures SplitHead(a + b, m) == a
    ensures SplitSecond(a + b, m) == SplitHead(b[|m|..], m)
  {
    FindAtSeam(a, b, m);
    SplitKnown(a, b, m);
  }

  /** A text without newlines in front of `c` adds no occurrence of a marker. */
  lemma NoNewlinePrefix(p: string, c: string, m: string)
    requires IsMarker(m) && NoNewline(p) && !Contains(c, m)
    ensures !Contains(p + c, m)
  {
    forall k: nat | k <= |p + c| ensures !IsAt(p + c, m, k) {
      if k < |p| {
        Mismatch(p + c, m, k, 0);
      } else {
        ShiftedOccurrence(p, c, m, k - |p|);
      }
    }
  }

  /** A marker is not found in another marker's section unless it is in the section's text. */
  lemma NotInSection(marker: string, text: string, m: string)
    requires IsMarker(m) && IsMarker(marker) && marker[2] != m[2]
    requires !Contains(text, m)
    ensures !Contains(marker + " " + text, m)
  {
    var tail := marker[2..] + " ";
    NoNewlinePrefix(tail, text, m);
    var s := marker + " " + text;
    assert s == "\n\n" + (tail + text);
    forall k: nat | k <= |s| ensures !IsAt(s, m, k) {
      if k == 0 {
        Mismatch(s, m, 0, 2);
      } else if k == 1 {
        Mismatch(s, m, 1, 1);
      } else {
        ShiftedOccurrence("\n\n", tail + text, m, k - 2);
      }
    }
  }

  /** A text that holds neither marker. */
  predicate Unmarked(s: string) {
    !Contains(s, IngredientsMarker) && !Contains(s, UsageMarker)
  }

  /** With `m` in neither `d` nor `rest`, splitting `d + m + rest` at `m` gives `d` and `rest`. */
  lemma FirstSection(d: string, m: string, rest: string)
    requires IsMarker(m) && !Contains(d, m) && !Contains(rest, m)
    ensures Contains(d + m + rest, m)
    ensures SplitHead(d + m + rest, m) == d && SplitSecond(d + m + rest, m) == rest
  {
    var b := m + rest;
    assert IsAt(b, m, 0) by { assert b[..|m|] == m; }
    assert d + m + rest == d + b;
    SplitAtSeam(d, b, m);
    assert b[|m|..] == rest;
    SplitHeadAbsent(rest, m);
  }

  /** A stripped section without the marker comes back from behind its space unchanged. */
  lemma SectionText(text: string, m: string)
    requires IsMarker(m) && !Contains(text, m) && IsStripped(text)
    ensures !Contains(" " + text, m) && Strip(" " + text) == text
  {
    assert NoNewline(" ");
    NoNewlinePrefix(" ", text, m);
    StripLeadingSpaces(" ", text);
  }

  // The split read off from where the markers are found.

  lemma SplitFromBoth(full: string, description: string, remaining: string, head: string, ingredients: string, usage: string)
    requires Contains(full, IngredientsMarker) && SplitHead(full, IngredientsMarker) == description
    requires SplitSecond(full, IngredientsMarker) == remaining && Contains(remaining, UsageMarker)
    requires SplitHead(remaining, UsageMarker) == head && Strip(head) == ingredients
    requires Strip(SplitSecond(remaining, UsageMarker)) == usage
    ensures Split(Some(full)) == Parts(description, ingredients, usage)
  {
  }

  lemma SplitFromIngredients(full: string, description: string, remaining: string, ingredients: string)
    requires Contains(full, IngredientsMarker) && SplitHead(full, IngredientsMarker) == description
    requires SplitSecond(full, IngredientsMarker) == remaining && !Contains(remaining, UsageMarker)
    requires Strip(remaining) == ingredients
    ensures Split(Some(full)) == Parts(description, ingredients, [])
  {
  }

  lemma SplitFromUsage(full: string, description: string, usage: string)
    requires !Contains(full, IngredientsMarker) && Contains(full, UsageMarker)
    requires SplitHead(full, UsageMarker) == description && Strip(SplitSecond(full, UsageMarker)) == usage
    ensures Split(Some(full)) == Parts(description, [], usage)
  {
  }

  /** The stored text regrouped around its first marker. */
  lemma Regroup(d: string, mi: string, ingredients: string, mu: string, usage: string)
    ensures d + (mi + " " + ingredients) + (mu + " " + usage) == d + mi + (" " + ingredients + mu + (" " + usage))
  {
    assert mi + " " + ingredients == mi + (" " + ingredients);
    assert mu + " " + usage == mu + (" " + usage);
  }

  /** The stored text with one section, grouped as marker, then space and text. */
  lemma ComposeIngredientsOnly(description: string, ingredients: string)
    requires ingredients != []
    ensures Compose(description, ingredients, []) == description + IngredientsMarker + (" " + ingredients)
  {
    assert IngredientsMarker + " " + ingredients == IngredientsMarker + (" " + ingredients);
  }

  lemma ComposeUsageOnly(description: string, usage: string)
    requires usage != []
    ensures Compose(description, [], usage) == description + UsageMarker + (" " + usage)
  {
    assert UsageMarker + " " + usage == UsageMarker + (" " + usage);
  }

  /** Both sections present. */
  lemma SplitComposeBoth(description: string, ingredients: string, usage: string)
    requires Unmarked(description) && Unmarked(ingredients) && Unmarked(usage)
    requires IsStripped(ingredients) && IsStripped(usage) && ingredients != [] && usage != []
    ensures Split(Some(Compose(description, ingredients, usage))) == Parts(description, ingredients, usage)
  {
    var mi, mu := IngredientsMarker, UsageMarker;
    var head := " " + ingredients;
    var remaining := head + mu + (" " + usage);
    Regroup(description, mi, ingredients, mu, usage);
    BothOuterFacts(description, ingredients, usage);
    BothInnerFacts(ingredients, usage);
    SplitFromBoth(description + mi + remaining, description, remaining, head, ingredients, usage);
  }

  /** Both sections present: the split at the ingredients marker. */
  lemma BothOuterFacts(description: string, ingredients: string, usage: string)
    requires Unmarked(description) && Unmarked(ingredients) && Unmarked(usage)
    ensures var remaining := " " + ingredients + UsageMarker + (" " + usage);
            var full := description + IngredientsMarker + remaining;
            && Contains(full, IngredientsMarker) && SplitHead(full, IngredientsMarker) == description
            && SplitSecond(full, IngredientsMarker) == remaining
  {
    var mi, mu := IngredientsMarker, UsageMarker;
    MarkersDiffer();
    var head := " " + ingredients;
    var remaining := head + mu + (" " + usage);
    assert !Contains(remaining, mi) by {
      var secU := mu + " " + usage;
      assert !Contains(head, mi) by {
        assert NoNewline(" ");
        NoNewlinePrefix(" ", ingredients, mi);
      }
      NotInSection(mu, usage, mi);
      NotInConcat(head, secU, mi);
      assert remaining == head + secU;
    }
    FirstSection(description, mi, remaining);
  }

  /** Both sections present: the split of the rest at the usage marker. */
  lemma BothInnerFacts(ingredients: string, usage: string)
    requires Unmarked(ingredients) && Unmarked(usage)
    requires IsStripped(ingredients) && IsStripped(usage)
    ensures var head := " " + ingredients;
            var remaining := head + UsageMarker + (" " + usage);
            && Contains(remaining, UsageMarker) && SplitHead(remaining, UsageMarker) == head
            && Strip(head) == ingredients && Strip(SplitSecond(remaining, UsageMarker)) == usage
  {
    var mu := UsageMarker;
    MarkersDiffer();
    var head := " " + ingredients;
    assert !Contains(head, mu) && Strip(head) == ingredients by {
      SectionText(ingredients, mu);
    }
    assert !Contains(" " + usage, mu) && Strip(" " + usage) == usage by {
      SectionText(usage, mu);
    }
    FirstSection(head, mu, " " + usage);
  }

  /** Only the ingredients section present. */
  lemma SplitComposeIngredients(description: string, ingredients: string)
    requires Unmarked(description) && Unmarked(ingredients) && IsStripped(ingredients) && ingredients != []
    ensures Split(Some(Compose(description, ingredients, []))) == Parts(description, ingredients, [])
  {
    var mi := IngredientsMarker;
    ComposeIngredientsOnly(description, ingredients);
    IngredientsFacts(description, ingredients);
    SplitFromIngredients(description + mi + (" " + ingredients), description, " " + ingredients, ingredients);
  }

  lemma IngredientsFacts(description: string, ingredients: string)
    requires Unmarked(description) && Unmarked(ingredients) && IsStripped(ingredients)
    ensures var full := description + IngredientsMarker + (" " + ingredients);
            && Contains(full, IngredientsMarker) && SplitHead(full, IngredientsMarker) == description
            && SplitSecond(full, IngredientsMarker) == " " + ingredients
            && !Contains(" " + ingredients, UsageMarker) && Strip(" " + ingredients) == ingredients
  {
    var mi, mu := IngredientsMarker, UsageMarker;
    assert IsMarker(mi) && IsMarker(mu);
    SectionText(ingredients, mi);
    SectionText(ingredients, mu);
    FirstSection(description, mi, " " + ingredients);
  }

  /** Only the usage section present. */
  lemma SplitComposeUsage(description: string, usage: string)
    requires Unmarked(description) && Unmarked(usage) && IsStripped(usage) && usage != []
    ensures Split(Some(Compose(description, [], usage))) == Parts(description, [], usage)
  {
    var mu := UsageMarker;
    ComposeUsageOnly(description, usage);
    UsageNoIngredients(description, usage);
    UsageSplit(description, usage);
    SplitFromUsage(description + mu + (" " + usage), description, usage);
  }

  /** Only the usage section present: the ingredients marker is nowhere. */
  lemma UsageNoIngredients(description: string, usage: string)
    requires Unmarked(description) && Unmarked(usage)
    ensures !Contains(description + UsageMarker + (" " + usage), IngredientsMarker)
  {
    var mi, mu := IngredientsMarker, UsageMarker;
    MarkersDiffer();
    var secU := mu + " " + usage;
    NotInSection(mu, usage, mi);
    NotInConcat(description, secU, mi);
    assert description + mu + (" " + usage) == description + secU;
  }

  /** Only the usage section present: the split at the usage marker. */
  lemma UsageSplit(description: string, usage: string)
    requires Unmarked(description) && Unmarked(usage) && IsStripped(usage)
    ensures var full := description + UsageMarker + (" " + usage);
            && Contains(full, UsageMarker) && SplitHead(full, UsageMarker) == description
            && Strip(SplitSecond(full, UsageMarker)) == usage
  {
    var mu := UsageMarker;
    MarkersDiffer();
    assert !Contains(" " + usage, mu) && Strip(" " + usage) == usage by {
      SectionText(usage, mu);
    }
    FirstSection(description, mu, " " + usage);
  }

  /** Splitting a composed description gives the form fields back, an empty
      section coming back as ''. The fields must hold no marker and the
      sections must carry no surrounding whitespace, which the split strips. */
  lemma SplitCompose(description: string, ingredients: string, usage: string)
    requires Unmarked(description) && Unmarked(ingredients) && Unmarked(usage)
    requires IsStripped(ingredients) && IsStripped(usage)
    ensures Split(Some(Compose(description, ingredients, usage))) == Parts(description, ingredients, usage)
  {
    if ingredients != [] && usage != [] {
      SplitComposeBoth(description, ingredients, usage);
    } else if ingredients != [] {
      SplitComposeIngredients(description, ingredients);
    } else if usage != [] {
      SplitComposeUsage(description, usage);
    }
  }
}
