/** Resolving a shopper's free-text query to a product of the catalog.

    `process_product_name` normalizes the query, keeps every group key the
    query matches (in the key order of the catalog index) and classifies the
    result: nothing matched, several groups matched, one group with several
    raw names matched, or one product. `process_product_selection` validates
    the button text the shopper sends back against the stored candidates. */
module Resolver {
  import opened Wrappers
  import opened Text
  import opened Normalizer
  import opened Catalog

  /** A query word occurs in `key`: `any(word in key for word in words)`. */
  predicate SomeWordIn(words: seq<string>, key: string)
  {
    words != [] && (IsSubstring(words[0], key) || SomeWordIn(words[1..], key))
  }

  lemma {:induction false} SomeWordInMeaning(words: seq<string>, key: string)
    ensures SomeWordIn(words, key) <==> exists i :: 0 <= i < |words| && IsSubstring(words[i], key)
  {
    if words != [] {
      SomeWordInMeaning(words[1..], key);
      if exists i :: 0 <= i < |words| && IsSubstring(words[i], key) {
        var i :| 0 <= i < |words| && IsSubstring(words[i], key);
        if i > 0 {
          assert words[1..][i - 1] == words[i];
        }
      }
      if SomeWordIn(words[1..], key) {
        var i :| 0 <= i < |words[1..]| && IsSubstring(words[1..][i], key);
        assert words[i + 1] == words[1..][i];
      }
    }
  }

  /** The match test of `process_product_name` between the normalized query
      and a group key. */
  predicate Matches(query: string, key: string)
  {
    IsSubstring(query, key) || IsSubstring(key, query) || SomeWordIn(Words(query), key)
  }

  /** A key matches exactly when one of the two contains the other, or one
      whitespace-separated word of the query occurs inside the key. */
  lemma MatchesMeaning(query: string, key: string)
    ensures Matches(query, key) <==>
      || (exists i :: 0 <= i <= |key| - |query| && IsPrefix(query, key[i..]))
      || (exists i :: 0 <= i <= |query| - |key| && IsPrefix(key, query[i..]))
      || (exists w :: w in Words(query) && IsSubstring(w, key))
  {
    SubstringAt(query, key);
    SubstringAt(key, query);
    SomeWordInMeaning(Words(query), key);
    var ws := Words(query);
    if exists w :: w in ws && IsSubstring(w, key) {
      var w :| w in ws && IsSubstring(w, key);
      var i :| 0 <= i < |ws| && ws[i] == w;
    }
  }

  /** A query without whitespace is its own only word, so it matches a key
      exactly when one of the two contains the other. */
  lemma SingleWordMatch(query: string, key: string)
    requires query != [] && forall i :: 0 <= i < |query| ==> !IsSpace(query[i])
    ensures Matches(query, key) <==> IsSubstring(query, key) || IsSubstring(key, query)
  {
    var ws := Words(query);
    WordsOfSingleWord(query);
    assert ws[0] == query && ws[1..] == [];
    assert SomeWordIn(ws, key) <==> IsSubstring(query, key);
  }

  /** `matched_groups`: the keys of `order` that match `query`, in order. */
  function MatchedKeys(order: seq<string>, query: string): (matched: seq<string>)
    ensures forall k :: k in matched <==> k in order && Matches(query, k)
    ensures |matched| <= |order|
  {
    if order == [] then []
    else
      var rest := MatchedKeys(order[..|order| - 1], query);
      var k := order[|order| - 1];
      if Matches(query, k) then rest + [k] else rest
  }

  /** Filtering distributes over concatenation, so the matched keys keep
      the relative order they have in `order`. */
  lemma {:induction false} MatchedKeysAppend(a: seq<string>, b: seq<string>, query: string)
    ensures MatchedKeys(a + b, query) == MatchedKeys(a, query) + MatchedKeys(b, query)
  {
    if b == [] {
      assert a + b == a;
    } else {
      var b' := b[..|b| - 1];
      MatchedKeysAppend(a, b', query);
      assert (a + b)[..|a + b| - 1] == a + b';
      assert (a + b)[|a + b| - 1] == b[|b| - 1];
    }
  }

  /** An empty normalized query (a query made only of quantities, say)
      matches every key. */
  lemma {:induction false} EmptyQueryMatchesAll(order: seq<string>)
    ensures MatchedKeys(order, []) == order
  {
    if order != [] {
      EmptyQueryMatchesAll(order[..|order| - 1]);
      assert IsPrefix([], order[|order| - 1]);
      assert order[..|order| - 1] + [order[|order| - 1]] == order;
    }
  }

  /** The loop of `process_product_name` that collects `matched_groups`. */
  method CollectMatches(order: seq<string>, query: string) returns (matched: seq<string>)
    ensures matched == MatchedKeys(order, query)
  {
    matched := [];
    var i := 0;
    while i < |order|
      invariant 0 <= i <= |order|
      invariant matched == MatchedKeys(order[..i], query)
    {
      assert order[..i + 1][..i] == order[..i];
      if Matches(query, order[i]) {
        matched := matched + [order[i]];
      }
      i := i + 1;
    }
    assert order[..i] == order;
  }

  /** The first `n` elements of `s`, or all of them: Python's `s[:n]`. */
  function Take(s: seq<string>, n: nat): (r: seq<string>)
    ensures |r| == if |s| < n then |s| else n
    ensures r == s[..|r|]
  {
    if |s| <= n then s else s[..n]
  }

  /** How many keys the not-found answer suggests, and how many variants
      the variant keyboard shows. */
  const SuggestionCount := 10

  /** The four answers of `process_product_name`, and the empty catalog. */
  datatype Outcome =
    | EmptyCatalog
    | NotFound(suggestions: seq<string>)
    | ManyGroups(matched: seq<string>)
    | ManyVariants(key: string, variants: set<string>, shown: seq<string>)
    | Single(key: string, name: string)

  /** The catalog index as `process_product_name` leaves it: the key order
      lists exactly the keys of the groups, and no group is empty. */
  ghost predicate IndexValid(order: seq<string>, groups: map<string, set<string>>)
  {
    && (forall k :: k in order <==> k in groups)
    && (forall k :: k in groups ==> groups[k] != {})
  }

  lemma IndexOfRowsValid(rows: seq<Row>, key: string -> string)
    ensures IndexValid(KeyOrderOf(rows, key), GroupsOf(rows, key))
  {
    GroupsOfMeaning(rows, key);
  }

  /** The classification of `process_product_name` once the index is built
      and the query normalized. */
  function ClassifyQuery(order: seq<string>, groups: map<string, set<string>>, query: string): (r: Outcome)
    requires IndexValid(order, groups)
    ensures !r.EmptyCatalog?
    ensures var matched := MatchedKeys(order, query);
      && (r.NotFound? <==> matched == [])
      && (r.ManyGroups? <==> |matched| > 1)
      && (r.ManyGroups? ==> r.matched == matched)
      && (r.ManyVariants? || r.Single? <==> |matched| == 1)
      && (r.ManyVariants? || r.Single? ==> r.key == matched[0] && r.key in groups && Matches(query, r.key))
      && (r.ManyVariants? ==> r.variants == groups[r.key] && |r.variants| > 1)
      && (r.Single? ==> groups[r.key] == {r.name})
  {
    ClassifyMatched(groups, MatchedKeys(order, query))
  }

  /** The answers of handlers.py:134-190 once the matching keys are known. */
  function ClassifyMatched(groups: map<string, set<string>>, matched: seq<string>): (r: Outcome)
    requires forall k :: k in matched ==> k in groups && groups[k] != {}
    ensures !r.EmptyCatalog?
  {
    if matched == [] then NotFound(Take(SortSet(groups.Keys), SuggestionCount))
    else if |matched| > 1 then ManyGroups(matched)
    else
      var key := matched[0];
      var variants := groups[key];
      if |variants| > 1 then ManyVariants(key, variants, Take(SortSet(variants), SuggestionCount))
      else
        var name := Least(variants);
        SingletonOfLeast(variants, name);
        Single(key, name)
  }

  /** `process_product_name` on the product rows and the message text: the
      grouping by `Normalize`, then the classification of the normalized
      query `Normalize(text.strip().lower())`. */
  function Classify(rows: seq<Row>, text: string): (r: Outcome)
    ensures r.EmptyCatalog? <==> rows == []
  {
    if rows == [] then EmptyCatalog
    else
      IndexOfRowsValid(rows, Normalize);
      ClassifyQuery(KeyOrderOf(rows, Normalize), GroupsOf(rows, Normalize), Normalize(Lower(Strip(text))))
  }

  /** `process_product_name` step by step: group the rows, normalize the
      query, then answer from the index. */
  method ProcessProductName(rows: seq<Row>, text: string) returns (r: Outcome)
    ensures r == Classify(rows, text)
  {
    if rows == [] {
      return EmptyCatalog;
    }
    var order, groups := GroupByKey(rows, Normalize);
    var query := Normalize(Lower(Strip(text)));
    IndexOfRowsValid(rows, Normalize);
    var matched := CollectMatches(order, query);
    r := ClassifyMatched(groups, matched);
  }

  /** A product chosen or offered by `process_product_name` is a raw name
      of the catalog whose normalized form is the matched key. */
  lemma ClassifyOffersCatalogNames(rows: seq<Row>, text: string, n: string)
    requires Classify(rows, text).Single? || Classify(rows, text).ManyVariants?
    requires var r := Classify(rows, text);
      if r.Single? then n == r.name else n in r.variants
    ensures NameInRows(rows, n) && Normalize(n) == Classify(rows, text).key
  {
    var query := Normalize(Lower(Strip(text)));
    IndexOfRowsValid(rows, Normalize);
    assert Classify(rows, text) == ClassifyQuery(KeyOrderOf(rows, Normalize), GroupsOf(rows, Normalize), query);
    QueryOffersRowNames(rows, Normalize, query, n);
  }

  /** The same for any key function: what is offered is a row name whose
      key is the matched key. */
  lemma QueryOffersRowNames(rows: seq<Row>, key: string -> string, query: string, n: string)
    requires IndexValid(KeyOrderOf(rows, key), GroupsOf(rows, key))
    requires var r := ClassifyQuery(KeyOrderOf(rows, key), GroupsOf(rows, key), query);
      (r.Single? && n == r.name) || (r.ManyVariants? && n in r.variants)
    ensures var r := ClassifyQuery(KeyOrderOf(rows, key), GroupsOf(rows, key), query);
      NameInRows(rows, n) && key(n) == r.key
  {
    var order, groups := KeyOrderOf(rows, key), GroupsOf(rows, key);
    var r := ClassifyQuery(order, groups, query);
    assert r.key in groups && n in groups[r.key] by {
      OfferedFromGroup(order, groups, query, n);
    }
    GroupMembersHaveKey(rows, key, r.key, n);
  }

  /** A product chosen or offered by the classification belongs to the
      matched key's group. */
  lemma OfferedFromGroup(order: seq<string>, groups: map<string, set<string>>, query: string, n: string)
    requires IndexValid(order, groups)
    requires var r := ClassifyQuery(order, groups, query);
      (r.Single? && n == r.name) || (r.ManyVariants? && n in r.variants)
    ensures var r := ClassifyQuery(order, groups, query);
      r.key in groups && n in groups[r.key]
  {
  }

  lemma SingletonOfLeast(s: set<string>, m: string)
    requires |s| <= 1 && m in s
    ensures s == {m}
  {
    var t := s - {m};
    assert s == t + {m};
    assert |s| == |t| + 1;
    assert t == {};
  }

  /** The not-found answer suggests the lexicographically first ten keys of
      the catalog: it lists at most ten keys, in increasing order, and every
      key left out is greater than every key listed. */
  lemma NotFoundSuggestsFirstKeys(order: seq<string>, groups: map<string, set<string>>, query: string)
    requires IndexValid(order, groups) && ClassifyQuery(order, groups, query).NotFound?
    ensures var s := ClassifyQuery(order, groups, query).suggestions;
      && |s| == (if |groups| < SuggestionCount then |groups| else SuggestionCount)
      && StrictlySorted(s)
      && (forall k :: k in s ==> k in groups)
      && (forall k, i :: k in groups && k !in s && 0 <= i < |s| ==> LexLe(s[i], k))
  {
    var sorted := SortSet(groups.Keys);
    var s := ClassifyQuery(order, groups, query).suggestions;
    assert s == Take(sorted, SuggestionCount);
    assert forall j :: 0 <= j < |s| ==> s[j] == sorted[j];
    forall k, i | k in groups && k !in s && 0 <= i < |s| ensures LexLe(s[i], k) {
      var j :| 0 <= j < |sorted| && sorted[j] == k;
      assert i < j;
    }
  }

  /** The data `process_product_selection` reads back from the conversation
      state: `matched_groups` with `grouped_products` after a several-groups
      answer, `product_variants` with `norm_name` after a several-variants
      answer, and `product_name` once a product is chosen. `update_data`
      merges, so all of them can be present at once. */
  datatype Pending = Pending(matchedGroups: seq<string>, groups: map<string, set<string>>,
                             productVariants: set<string>, normName: string,
                             productName: Option<string>)

  /** The data after `state.clear()`: nothing is stored. */
  const Cleared := Pending([], map[], {}, "", None)

  /** The stored groups are the catalog's own: every matched key has a
      group, and no group is empty. */
  predicate PendingValid(p: Pending)
  {
    forall k :: k in p.matchedGroups ==> k in p.groups && p.groups[k] != {}
  }

  /** The button that cancels a choice. */
  const Cancel := "Отмена"

  /** What a selection does: cancel, offer the variants of the chosen group,
      choose a product of a group, or reject the text. */
  datatype Selection =
    | Cancelled
    | OfferVariants(key: string, variants: set<string>, shown: seq<string>)
    | Chosen(key: string, name: string)
    | Rejected

  /** The position of the first matched group whose capitalized key occurs
      in `selected`, or `|matched|` when there is none. */
  function FirstNamed(matched: seq<string>, selected: string): (i: nat)
    ensures i <= |matched|
    ensures i < |matched| ==> IsSubstring(Capitalize(matched[i]), selected)
    ensures forall j :: 0 <= j < i ==> !IsSubstring(Capitalize(matched[j]), selected)
  {
    if matched == [] then 0
    else if IsSubstring(Capitalize(matched[0]), selected) then 0
    else 1 + FirstNamed(matched[1..], selected)
  }

  /** The answer to a text naming one of the matched groups: the first
      group whose capitalized key occurs in it is picked; `Rejected` when
      the text names none. */
  function GroupPick(p: Pending, selected: string): (r: Selection)
    requires PendingValid(p)
    ensures !r.Cancelled?
    ensures r.Rejected? <==> forall k :: k in p.matchedGroups ==> !IsSubstring(Capitalize(k), selected)
    ensures r.OfferVariants? ==> r.key in p.matchedGroups && r.variants == p.groups[r.key] && |r.variants| > 1
    ensures r.Chosen? ==> r.key in p.matchedGroups && p.groups[r.key] == {r.name}
    ensures var i := FirstNamed(p.matchedGroups, selected);
      i < |p.matchedGroups| ==> r == GroupChoice(p, p.matchedGroups[i])
  {
    var i := FirstNamed(p.matchedGroups, selected);
    if i < |p.matchedGroups| then GroupChoice(p, p.matchedGroups[i]) else Rejected
  }

  /** `process_product_selection` as written: the groups are tried first,
      then the stored variants. */
  function Select(p: Pending, text: string): (r: Selection)
    requires PendingValid(p)
    ensures r.Cancelled? <==> text == Cancel
    ensures r.Rejected? ==> (text != Cancel && Strip(text) !in p.productVariants &&
      forall k :: k in p.matchedGroups ==> !IsSubstring(Capitalize(k), Strip(text)))
    ensures r.OfferVariants? ==> r.key in p.matchedGroups && r.variants == p.groups[r.key] && |r.variants| > 1
    ensures r.Chosen? ==> ((r.key in p.matchedGroups && p.groups[r.key] == {r.name}) ||
      (r.key == p.normName && r.name == Strip(text) && r.name in p.productVariants))
    ensures text != Cancel && FirstNamed(p.matchedGroups, Strip(text)) == |p.matchedGroups| ==>
      r == if Strip(text) in p.productVariants then Chosen(p.normName, Strip(text)) else Rejected
  {
    if text == Cancel then Cancelled
    else
      var selected := Strip(text);
      var g := GroupPick(p, selected);
      if !g.Rejected? then g
      else if selected in p.productVariants then Chosen(p.normName, selected)
      else Rejected
  }

  /** The answer to picking the group `key`: its variants when it has
      several, otherwise its only product. */
  function GroupChoice(p: Pending, key: string): (r: Selection)
    requires key in p.groups && p.groups[key] != {}
    ensures r.OfferVariants? || r.Chosen?
    ensures r.OfferVariants? <==> |p.groups[key]| > 1
    ensures r.OfferVariants? ==> r.key == key && r.variants == p.groups[key]
    ensures r.Chosen? ==> r.key == key && p.groups[key] == {r.name}
  {
    var variants := p.groups[key];
    if |variants| > 1 then OfferVariants(key, variants, Take(SortSet(variants), SuggestionCount))
    else
      var name := Least(variants);
      SingletonOfLeast(variants, name);
      Chosen(key, name)
  }

  /** The conversation data after a selection (handlers.py:197, 221, 226,
      235): a cancel clears it; offering variants stores them with their key;
      a choice stores the product and its key; a rejection changes nothing.
      Except on a cancel, `matched_groups` and the groups stay in place. */
  function AfterSelect(p: Pending, r: Selection): (p': Pending)
    ensures r.Cancelled? ==> p' == Cleared
    ensures !r.Cancelled? ==> p'.matchedGroups == p.matchedGroups && p'.groups == p.groups
    ensures r.OfferVariants? ==>
              p'.productVariants == r.variants && p'.normName == r.key && p'.productName == p.productName
    ensures r.Chosen? ==>
              p'.productVariants == p.productVariants && p'.normName == r.key && p'.productName == Some(r.name)
    ensures r.Rejected? ==> p' == p
  {
    match r
    case Cancelled => Cleared
    case OfferVariants(key, variants, _) => p.(productVariants := variants, normName := key)
    case Chosen(key, name) => p.(normName := key, productName := Some(name))
    case Rejected => p
  }

  /** After a cancel nothing is stored, so no later text selects anything. */
  lemma CancelForgetsCandidates(p: Pending, text: string)
    requires PendingValid(p) && text != Cancel
    ensures PendingValid(AfterSelect(p, Cancelled))
    ensures AfterSelect(p, Cancelled).productName == None
    ensures Select(AfterSelect(p, Cancelled), text) == Rejected
  {
  }

  /** A choice is what the quantity step reads back as `product_name`. */
  lemma ChoiceIsStored(p: Pending, text: string)
    requires PendingValid(p) && Select(p, text).Chosen?
    ensures AfterSelect(p, Select(p, text)).productName == Some(Select(p, text).name)
    ensures AfterSelect(p, Select(p, text)).normName == Select(p, text).key
    ensures PendingValid(AfterSelect(p, Select(p, text)))
  {
  }

  /** The selection as evidently intended: a stored variant is accepted
      before the group keys are tried again. */
  function SelectVariantsFirst(p: Pending, text: string): (r: Selection)
    requires PendingValid(p)
    ensures r.Cancelled? <==> text == Cancel
    ensures text != Cancel && Strip(text) in p.productVariants ==> r == Chosen(p.normName, Strip(text))
    ensures r.OfferVariants? ==> r.key in p.matchedGroups && r.variants == p.groups[r.key] && |r.variants| > 1
    ensures r.Rejected? ==> (text != Cancel && Strip(text) !in p.productVariants &&
      forall k :: k in p.matchedGroups ==> !IsSubstring(Capitalize(k), Strip(text)))
  {
    if text == Cancel then Cancelled
    else if Strip(text) in p.productVariants then Chosen(p.normName, Strip(text))
    else GroupPick(p, Strip(text))
  }

  /** After a group pick offers its variants, picking any offered variant
      is accepted by the corrected selection and yields that variant. */
  lemma VariantPickAccepted(p: Pending, text: string, v: string)
    requires PendingValid(p)
    requires Select(p, text).OfferVariants?
    requires v in Select(p, text).variants && v != Cancel && Strip(v) == v
    ensures SelectVariantsFirst(AfterSelect(p, Select(p, text)), v) == Chosen(Select(p, text).key, v)
  {
  }

  /** As written, the selection can never get past the variants of a group
      whose capitalized key occurs in the variant names: picking such a
      variant matches the still-stored group again and offers the same
      variants once more. */
  lemma VariantPickReoffered(p: Pending, text: string, v: string)
    requires PendingValid(p)
    requires Select(p, text).OfferVariants?
    requires v in Select(p, text).variants && v != Cancel
    requires var i := FirstNamed(p.matchedGroups, Strip(v));
      i < |p.matchedGroups| && p.matchedGroups[i] == Select(p, text).key
    ensures Select(AfterSelect(p, Select(p, text)), v) == Select(p, text)
  {
    var r := Select(p, text);
    SelectOfferedByGroup(p, text);
    var p' := AfterSelect(p, r);
    SelectNamedGroup(p', v);
    GroupChoiceReadsGroups(p, p', r.key);
  }

  /** Variants are only ever offered for the first group named in the text. */
  lemma SelectOfferedByGroup(p: Pending, text: string)
    requires PendingValid(p) && Select(p, text).OfferVariants?
    ensures text != Cancel
    ensures var i := FirstNamed(p.matchedGroups, Strip(text));
      i < |p.matchedGroups| && Select(p, text) == GroupChoice(p, p.matchedGroups[i])
  {
  }

  /** A text naming a matched group selects that group. */
  lemma SelectNamedGroup(p: Pending, text: string)
    requires PendingValid(p) && text != Cancel && FirstNamed(p.matchedGroups, Strip(text)) < |p.matchedGroups|
    ensures Select(p, text) == GroupChoice(p, p.matchedGroups[FirstNamed(p.matchedGroups, Strip(text))])
  {
  }

  /** The answer to a group pick depends only on the stored groups. */
  lemma GroupChoiceReadsGroups(p: Pending, p': Pending, key: string)
    requires key in p.groups && p.groups[key] != {} && p'.groups == p.groups
    ensures GroupChoice(p', key) == GroupChoice(p, key)
  {
  }

  /** The keys a query for cheese matched: cheese and cheese curd snacks. */
  const CheeseGroups: seq<string> := ["сыр", "сырок"]

  /** Two kinds of cheese in a group keyed "сыр", next to a second group the
      query also matched. */
  const CheesePending := Pending(CheeseGroups,
                                 map["сыр" := {CheeseVariant, OtherCheeseVariant}, "сырок" := {"Сырок"}],
                                 {}, "", None)

  /** The group button for cheese, as `process_product_name` labels it. */
  const CheeseButton := "Сыр" + " (Сыр 45%, Сыр 50%)"

  /** The two kinds of cheese, as their variant buttons read. */
  const CheeseVariant := "Сыр" + " 45%"
  const OtherCheeseVariant := "Сыр" + " 50%"

  lemma CapitalizedCheese()
    ensures Capitalize("сыр") == "Сыр"
  {
    assert Lower("ыр") == "ыр";
  }

  /** A button text that starts with "Сыр" and does not end in whitespace
      names the first matched group. */
  lemma CheeseTextNamesCheese(t: string)
    requires |t| > 6 && t[..3] == "Сыр" && !IsSpace(t[|t| - 1])
    ensures t != Cancel && Strip(t) == t && FirstNamed(CheeseGroups, t) == 0
  {
    assert t[0] == "Сыр"[0];
    StripUnpadded(t);
    CapitalizedCheese();
    assert IsPrefix(Capitalize(CheeseGroups[0]), t);
  }

  /** The stored data of the cheese example, taken apart. */
  lemma CheesePendingShape(p: Pending)
    requires p == CheesePending
    ensures PendingValid(p) && p.matchedGroups == CheeseGroups
    ensures "сыр" in p.groups && p.groups["сыр"] == {CheeseVariant, OtherCheeseVariant}
    ensures |p.groups["сыр"]| == 2
  {
    assert CheeseVariant[4] != OtherCheeseVariant[4];
  }

  /** Picking the cheese group button offers the two kinds of cheese. */
  lemma CheeseGroupOffered(p: Pending, button: string)
    requires p == CheesePending && button == CheeseButton
    ensures PendingValid(p)
    ensures var r := Select(p, button);
      r.OfferVariants? && r.key == "сыр" && r.variants == {CheeseVariant, OtherCheeseVariant}
  {
    CheesePendingShape(p);
    assert button != Cancel && FirstNamed(p.matchedGroups, Strip(button)) == 0 by {
      CheeseTextNamesCheese(button);
    }
    assert Select(p, button) == GroupChoice(p, "сыр") by {
      SelectNamedGroup(p, button);
    }
  }

  /** The shopper picks the cheese group, is offered both kinds, picks one of
      them and is offered both kinds again. */
  lemma CheeseSelectionLoops(p: Pending, button: string, variant: string)
    requires p == CheesePending && button == CheeseButton && variant == CheeseVariant
    ensures Select(p, button).OfferVariants?
    ensures variant in Select(p, button).variants
    ensures Select(AfterSelect(p, Select(p, button)), variant) == Select(p, button)
  {
    CheeseGroupOffered(p, button);
    CheeseVariantNamesGroup(p, variant);
    VariantPickReoffered(p, button, variant);
  }

  /** The variant button for the first kind of cheese still names the cheese
      group. */
  lemma CheeseVariantNamesGroup(p: Pending, variant: string)
    requires p == CheesePending && variant == CheeseVariant
    ensures variant != Cancel && Strip(variant) == variant
    ensures FirstNamed(p.matchedGroups, Strip(variant)) == 0 && p.matchedGroups[0] == "сыр"
  {
    CheeseTextNamesCheese(variant);
    CheesePendingShape(p);
  }

  /** The corrected selection accepts the same pick. */
  lemma CheesePickAccepted(p: Pending, button: string, variant: string)
    requires p == CheesePending && button == CheeseButton && variant == CheeseVariant
    ensures Select(p, button).OfferVariants?
    ensures SelectVariantsFirst(AfterSelect(p, Select(p, button)), variant) == Chosen("сыр", variant)
  {
    CheeseGroupOffered(p, button);
    CheeseVariantNamesGroup(p, variant);
    VariantPickAccepted(p, button, variant);
  }
}
