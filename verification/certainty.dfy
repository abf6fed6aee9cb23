/** Certainty bookkeeping of the tagging page: for every product handle, an
    optional {value, pct, source} entry for each of genre, subgenre and
    decade. Catalog tags seed entries at 100%, saved session certainties
    override them, and confirmed rules raise them vendor by vendor. */
module Certainty {
  import opened Wrappers
  import opened Records
  import opened Catalog
  import opened Vendors

  datatype TagKind = GenreTag | SubgenreTag | DecadeTag

  /** The record key a `tagType` string names; any other string names no
      field of the record. */
  function KindOf(tagType: string): (k: Option<TagKind>)
    ensures k == Some(GenreTag) <==> tagType == "genre"
    ensures k == Some(SubgenreTag) <==> tagType == "subgenre"
    ensures k == Some(DecadeTag) <==> tagType == "decade"
  {
    if tagType == "genre" then Some(GenreTag)
    else if tagType == "subgenre" then Some(SubgenreTag)
    else if tagType == "decade" then Some(DecadeTag)
    else None
  }

  datatype Entry = Entry(value: string, pct: int, source: string)

  /** `{ genre, subgenre, decade }`, where `{}` is `None`. */
  datatype Certainty = Certainty(genre: Option<Entry>, subgenre: Option<Entry>, decade: Option<Entry>)

  const Blank := Certainty(None, None, None)

  function Field(c: Certainty, k: TagKind): Option<Entry> {
    match k
    case GenreTag => c.genre
    case SubgenreTag => c.subgenre
    case DecadeTag => c.decade
  }

  /** `c[k] = e`. */
  function SetField(c: Certainty, k: TagKind, e: Entry): (r: Certainty)
    ensures Field(r, k) == Some(e)
    ensures forall k' :: k' != k ==> Field(r, k') == Field(c, k')
  {
    match k
    case GenreTag => c.(genre := Some(e))
    case SubgenreTag => c.(subgenre := Some(e))
    case DecadeTag => c.(decade := Some(e))
  }

  /** A rule: every product of `vendor` gets `value` for `tagType` with
      `certaintyPct`. */
  datatype Rule = Rule(ruleType: string, vendor: string, tagType: string, value: string,
                       certaintyPct: int, reason: string)

  /** `certData[h]`, with a missing handle read as the empty record. */
  function Lookup(m: map<string, Certainty>, h: string): Certainty {
    if h in m then m[h] else Blank
  }

  /** The guard `!current?.value || current.pct < rule.certaintyPct`: an
      entry is replaced unless it has a non-empty value at least as certain
      as the rule. A missing handle or a `tagType` naming no field reads as
      no entry. */
  predicate Admits(m: map<string, Certainty>, h: string, rule: Rule) {
    match KindOf(rule.tagType)
    case None => true
    case Some(k) =>
      h !in m || Field(m[h], k).None? || Field(m[h], k).value.value == ""
      || Field(m[h], k).value.pct < rule.certaintyPct
  }

  /** The record after the rule has been written into it: created empty if
      missing, and its `tagType` field set when `tagType` names one. */
  function Upgrade(c: Certainty, rule: Rule): Certainty {
    match KindOf(rule.tagType)
    case None => c
    case Some(k) => SetField(c, k, Entry(rule.value, rule.certaintyPct, "rule"))
  }

  /** The table once `rule` has been applied to the handles in `hs`. */
  function Applied(m: map<string, Certainty>, rule: Rule, hs: set<string>): (r: map<string, Certainty>)
    ensures r.Keys == m.Keys + hs
  {
    map h | h in m.Keys + hs :: if h in hs && Admits(m, h, rule) then Upgrade(Lookup(m, h), rule) else m[h]
  }

  /** One step of the loop: the rule applied to the product with handle `h`. */
  function ApplyOne(m: map<string, Certainty>, rule: Rule, h: string): map<string, Certainty> {
    if Admits(m, h, rule) then m[h := Upgrade(Lookup(m, h), rule)] else m
  }

  /** Applying a rule to one more handle is one more step of the loop; a
      handle met twice is not changed the second time. */
  lemma AppliedStep(m: map<string, Certainty>, rule: Rule, hs: set<string>, h: string)
    ensures Applied(m, rule, hs + {h}) == ApplyOne(Applied(m, rule, hs), rule, h)
  {
    var a := Applied(m, rule, hs);
    var lhs := Applied(m, rule, hs + {h});
    var rhs := ApplyOne(a, rule, h);
    if h in hs && Admits(m, h, rule) {
      UpgradeSettles(Lookup(m, h), rule);
      assert a[h] == Upgrade(Lookup(m, h), rule);
      if Admits(a, h, rule) {
        assert rhs[h] == lhs[h];
      }
    }
    assert lhs.Keys == rhs.Keys;
  }

  /** A record the rule was written into is unchanged by writing it again. */
  lemma UpgradeSettles(c: Certainty, rule: Rule)
    ensures Upgrade(Upgrade(c, rule), rule) == Upgrade(c, rule)
  {
  }

  function HandleSet(ps: seq<Product>): set<string> {
    set p | p in ps :: p.handle
  }

  /** `applyRuleToProducts` on a table held in `entries`. */
  class CertaintyTable {
    var entries: map<string, Certainty>

    constructor ()
      ensures entries == map[]
    {
      entries := map[];
    }

    /** `applyRuleToProducts(rule, vendors, this)`: changes nothing when the
        rule's vendor has no entry. */
    method ApplyRule(rule: Rule, vendors: Dict<VendorData>)
      modifies this
      ensures rule.vendor !in vendors.vals ==> entries == old(entries)
      ensures rule.vendor in vendors.vals ==>
                entries == Applied(old(entries), rule, HandleSet(vendors.vals[rule.vendor].products))
      ensures entries == AfterRule(old(entries), rule, vendors)
    {
      if rule.vendor !in vendors.vals {
        return;
      }
      var ps := vendors.vals[rule.vendor].products;
      for i := 0 to |ps|
        invariant entries == Applied(old(entries), rule, HandleSet(ps[..i]))
      {
        var h := ps[i].handle;
        AppliedStep(old(entries), rule, HandleSet(ps[..i]), h);
        assert HandleSet(ps[..i + 1]) == HandleSet(ps[..i]) + {h} by {
          assert ps[..i + 1] == ps[..i] + [ps[i]];
        }
        if Admits(entries, h, rule) {
          var c := if h in entries then entries[h] else Blank;
          entries := entries[h := Upgrade(c, rule)];
        }
      }
      assert ps[..|ps|] == ps;
    }

    /** `for (const rule of rules) applyRuleToProducts(rule, vendors, this)`. */
    method ApplyRules(rules: seq<Rule>, vendors: Dict<VendorData>)
      modifies this
      ensures entries == AfterRules(old(entries), rules, vendors)
    {
      ghost var m := entries;
      for i := 0 to |rules|
        invariant entries == AfterRules(m, rules[..i], vendors)
      {
        assert rules[..i + 1][..i] == rules[..i];
        ApplyRule(rules[i], vendors);
      }
      assert rules[..|rules|] == rules;
    }

    /** The seeding loop: a fresh table with each product's tags. */
    method Seed(products: seq<Product>)
      modifies this
      ensures entries == Seeded(products)
    {
      entries := map[];
      for i := 0 to |products|
        invariant entries == Seeded(products[..i])
      {
        var p := products[i];
        assert products[..i + 1][..i] == products[..i];
        entries := entries[p.handle := SeedEntry(p)];
      }
      assert products[..|products|] == products;
    }

    /** The override loop with the certainties saved in a session. */
    method ApplySaved(saved: seq<SavedCertainty>)
      modifies this
      ensures entries == WithSaved(old(entries), saved)
    {
      ghost var m := entries;
      for i := 0 to |saved|
        invariant entries == WithSaved(m, saved[..i])
      {
        var c := saved[i];
        assert saved[..i + 1][..i] == saved[..i];
        var cur := if c.handle in entries then entries[c.handle] else Blank;
        var updated := match KindOf(c.tagType)
          case None => cur
          case Some(k) => SetField(cur, k, Entry(c.value, c.pct, c.source));
        entries := entries[c.handle := updated];
      }
      assert saved[..|saved|] == saved;
    }
  }

  /** The table after `applyRuleToProducts(rule, vendors, m)`. */
  function AfterRule(m: map<string, Certainty>, rule: Rule, vendors: Dict<VendorData>): map<string, Certainty> {
    if rule.vendor in vendors.vals then Applied(m, rule, HandleSet(vendors.vals[rule.vendor].products)) else m
  }

  /** The table after applying `rules` in order. */
  function AfterRules(m: map<string, Certainty>, rules: seq<Rule>, vendors: Dict<VendorData>): map<string, Certainty> {
    if rules == [] then m else AfterRule(AfterRules(m, rules[..|rules| - 1], vendors), rules[|rules| - 1], vendors)
  }

  lemma AfterRulesSnoc(m: map<string, Certainty>, rules: seq<Rule>, rule: Rule, vendors: Dict<VendorData>)
    ensures AfterRules(m, rules + [rule], vendors) == AfterRule(AfterRules(m, rules, vendors), rule, vendors)
  {
    assert (rules + [rule])[..|rules|] == rules;
  }

  // ---------------------------------------------------------------------
  // What a rule application guarantees.

  /** Afterwards every handle of the vendor has an entry for the rule's
      field at least as certain as the rule, valued when the rule's value
      is non-empty. */
  lemma AppliedCovers(m: map<string, Certainty>, rule: Rule, hs: set<string>, h: string, k: TagKind)
    requires h in hs && KindOf(rule.tagType) == Some(k)
    ensures h in Applied(m, rule, hs)
    ensures var f := Field(Applied(m, rule, hs)[h], k);
            && f.Some? && f.value.pct >= rule.certaintyPct
            && (rule.value != "" ==> f.value.value != "")
  {
  }

  /** Handles outside `hs` keep their records, and for handles in `hs` the
      fields other than the rule's keep their entries. */
  lemma AppliedFrame(m: map<string, Certainty>, rule: Rule, hs: set<string>, h: string)
    ensures h !in hs && h in m ==> Applied(m, rule, hs)[h] == m[h]
    ensures h in hs ==> forall k :: Some(k) != KindOf(rule.tagType) ==>
              Field(Applied(m, rule, hs)[h], k) == Field(Lookup(m, h), k)
  {
  }

  /** Applying the same rule twice is applying it once. */
  lemma AppliedIdempotent(m: map<string, Certainty>, rule: Rule, hs: set<string>)
    ensures Applied(Applied(m, rule, hs), rule, hs) == Applied(m, rule, hs)
  {
    var a := Applied(m, rule, hs);
    var b := Applied(a, rule, hs);
    forall h | h in b.Keys ensures b[h] == a[h] {
      if h in hs && Admits(a, h, rule) {
        UpgradeSettles(Lookup(m, h), rule);
      }
    }
  }

  /** A valued entry is never made less certain, and one at least as
      certain as the rule is left alone. */
  lemma AppliedMonotone(m: map<string, Certainty>, rule: Rule, hs: set<string>, h: string, k: TagKind)
    requires h in m && Field(m[h], k).Some? && Field(m[h], k).value.value != ""
    ensures Field(Applied(m, rule, hs)[h], k).Some?
    ensures Field(Applied(m, rule, hs)[h], k).value.pct >= Field(m[h], k).value.pct
    ensures Field(m[h], k).value.pct >= rule.certaintyPct ==>
              Field(Applied(m, rule, hs)[h], k) == Field(m[h], k)
  {
  }

  // ---------------------------------------------------------------------
  // Seeding from catalog tags.

  const Existing := "existing"

  /** The record a product's own tags give it: each truthy existing field
      at 100% with source `existing`. */
  function SeedEntry(p: Product): (c: Certainty)
    ensures Truthy(p.existingGenre) <==> c.genre.Some?
    ensures Truthy(p.existingGenre) ==> c.genre == Some(Entry(p.existingGenre.value, 100, Existing))
    ensures Truthy(p.existingSubgenre) <==> c.subgenre.Some?
    ensures Truthy(p.existingSubgenre) ==> c.subgenre == Some(Entry(p.existingSubgenre.value, 100, Existing))
    ensures Truthy(p.existingDecade) <==> c.decade.Some?
    ensures Truthy(p.existingDecade) ==> c.decade == Some(Entry(p.existingDecade.value, 100, Existing))
  {
    Certainty(
      if Truthy(p.existingGenre) then Some(Entry(p.existingGenre.value, 100, Existing)) else None,
      if Truthy(p.existingSubgenre) then Some(Entry(p.existingSubgenre.value, 100, Existing)) else None,
      if Truthy(p.existingDecade) then Some(Entry(p.existingDecade.value, 100, Existing)) else None)
  }

  /** The table the seeding loop builds: each handle gets the record of the
      last product with that handle. */
  function Seeded(ps: seq<Product>): map<string, Certainty> {
    if ps == [] then map[]
    else Seeded(ps[..|ps| - 1])[ps[|ps| - 1].handle := SeedEntry(ps[|ps| - 1])]
  }

  /** Exactly the catalog's handles are seeded, and when handles are unique
      each product's record is its own seed. */
  lemma {:induction false} SeededEntries(ps: seq<Product>, i: nat)
    requires i < |ps|
    requires forall a, b :: 0 <= a < b < |ps| ==> ps[a].handle != ps[b].handle
    ensures ps[i].handle in Seeded(ps) && Seeded(ps)[ps[i].handle] == SeedEntry(ps[i])
  {
    if i < |ps| - 1 {
      SeededEntries(ps[..|ps| - 1], i);
    }
  }

  lemma {:induction false} SeededKeys(ps: seq<Product>)
    ensures Seeded(ps).Keys == HandleSet(ps)
  {
    if ps != [] {
      SeededKeys(ps[..|ps| - 1]);
      assert ps == ps[..|ps| - 1] + [ps[|ps| - 1]];
      assert HandleSet(ps) == HandleSet(ps[..|ps| - 1]) + {ps[|ps| - 1].handle};
    }
  }

  /** Every rule the application creates is at most 95% certain (answered
      questions are capped at 95, edits use 85), so a catalog tag seeded at
      100% is never replaced by a rule. */
  lemma ExistingSurvives(m: map<string, Certainty>, rule: Rule, hs: set<string>, h: string, k: TagKind)
    requires rule.certaintyPct <= 95
    requires h in m && Field(m[h], k).Some? && Field(m[h], k).value.pct == 100
    requires Field(m[h], k).value.value != ""
    ensures Field(Applied(m, rule, hs)[h], k) == Field(m[h], k)
  {
    AppliedMonotone(m, rule, hs, h, k);
  }

  // ---------------------------------------------------------------------
  // Saved session certainties.

  datatype SavedCertainty = SavedCertainty(handle: string, tagType: string, value: string, pct: int, source: string)

  /** One step of the override loop: the handle's record is created if
      missing and the named field overwritten. */
  function Override(m: map<string, Certainty>, c: SavedCertainty): map<string, Certainty> {
    var cur := Lookup(m, c.handle);
    m[c.handle := match KindOf(c.tagType)
                  case None => cur
                  case Some(k) => SetField(cur, k, Entry(c.value, c.pct, c.source))]
  }

  function WithSaved(m: map<string, Certainty>, saved: seq<SavedCertainty>): map<string, Certainty> {
    if saved == [] then m else Override(WithSaved(m, saved[..|saved| - 1]), saved[|saved| - 1])
  }

  predicate Targets(c: SavedCertainty, h: string, k: TagKind) {
    c.handle == h && KindOf(c.tagType) == Some(k)
  }

  /** After the override loop, the table holds the seeded handles and the
      handles of the saved certainties. */
  lemma {:induction false} WithSavedKeys(m: map<string, Certainty>, saved: seq<SavedCertainty>, h: string)
    ensures h in WithSaved(m, saved) <==> h in m || exists j :: 0 <= j < |saved| && saved[j].handle == h
  {
    if saved != [] {
      var init := saved[..|saved| - 1];
      WithSavedKeys(m, init, h);
      if exists j :: 0 <= j < |saved| && saved[j].handle == h {
        var j :| 0 <= j < |saved| && saved[j].handle == h;
        if j < |saved| - 1 { assert init[j] == saved[j]; }
      }
    }
  }

  /** A field that no saved certainty names keeps its seeded entry. */
  lemma {:induction false} UnsavedFieldKept(m: map<string, Certainty>, saved: seq<SavedCertainty>, h: string, k: TagKind)
    requires forall j :: 0 <= j < |saved| ==> !Targets(saved[j], h, k)
    ensures Field(Lookup(WithSaved(m, saved), h), k) == Field(Lookup(m, h), k)
  {
    if saved != [] {
      var init := saved[..|saved| - 1];
      assert forall j :: 0 <= j < |init| ==> init[j] == saved[j];
      UnsavedFieldKept(m, init, h, k);
      assert !Targets(saved[|saved| - 1], h, k);
    }
  }

  /** A field that saved certainty `j` names, and no later one does, holds
      certainty `j` after the override loop: the last write wins. */
  lemma {:induction false} LastSavedWins(m: map<string, Certainty>, saved: seq<SavedCertainty>, j: nat, k: TagKind)
    requires j < |saved| && KindOf(saved[j].tagType) == Some(k)
    requires forall j' :: j < j' < |saved| ==> !Targets(saved[j'], saved[j].handle, k)
    ensures Field(Lookup(WithSaved(m, saved), saved[j].handle), k)
         == Some(Entry(saved[j].value, saved[j].pct, saved[j].source))
  {
    var init := saved[..|saved| - 1];
    if j < |saved| - 1 {
      assert forall j' :: 0 <= j' < |init| ==> init[j'] == saved[j'];
      LastSavedWins(m, init, j, k);
      assert !Targets(saved[|saved| - 1], saved[j].handle, k);
    }
  }

  /** A catalog tag, seeded at 100%, survives any sequence of rules of at
      most 95% certainty: the rules the pages create never overwrite it. */
  lemma {:induction false} ExistingSurvivesRules(m: map<string, Certainty>, rules: seq<Rule>, vendors: Dict<VendorData>,
                                                 h: string, k: TagKind)
    requires forall i :: 0 <= i < |rules| ==> rules[i].certaintyPct <= 95
    requires h in m && Field(m[h], k).Some? && Field(m[h], k).value.pct == 100
    requires Field(m[h], k).value.value != ""
    ensures h in AfterRules(m, rules, vendors)
    ensures Field(AfterRules(m, rules, vendors)[h], k) == Field(m[h], k)
  {
    if rules != [] {
      var init := rules[..|rules| - 1];
      assert forall i :: 0 <= i < |init| ==> init[i] == rules[i];
      ExistingSurvivesRules(m, init, vendors, h, k);
      var rule := rules[|rules| - 1];
      if rule.vendor in vendors.vals {
        ExistingSurvives(AfterRules(m, init, vendors), rule, HandleSet(vendors.vals[rule.vendor].products), h, k);
      }
    }
  }
}
