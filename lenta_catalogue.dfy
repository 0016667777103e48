/**
 * The Lenta catalogue parser. The catalogue endpoint lists every category
 * with its level and its parent's name; the parser keeps the second level,
 * drops the promotional sections and names each category
 * `parent / name`.
 */
module LentaCatalogue {
  import opened Wrappers
  import opened Text
  import opened Common

  /** One element of `json_data['categories']`: the keys the parser reads. */
  datatype Entry = Entry(id: int, level: int, parentName: string, name: string)

  /** The parent sections whose categories are not scraped ('Особенно выгодно' is listed twice). */
  const ExcludedParents: seq<string> :=
    ["Особенно выгодно", "Новинки", "Новогодний стол",
     "Новогодний декор и подарки", "Особенно выгодно", "Товары до 99 рублей"]

  /** The prefix of the discount-catalogue sections, which are not scraped either. */
  const DiscountPrefix: string := "Каталог выгодных"

  /** A second-level category outside the excluded sections. */
  predicate Kept(e: Entry)
  {
    && e.level == 2
    && e.parentName !in ExcludedParents
    && !StartsWith(e.parentName, DiscountPrefix)
  }

  /** The category built for a kept entry: no database id yet, the id as its code. */
  function CategoryOf(sm: Supermarket, e: Entry): (c: Category)
    ensures c.supermarketId == Some(sm.supermarketId) && c.categoryId == None && c.lastScrapedOn == None
    ensures c.name == e.parentName + " / " + e.name
    ensures PyInt(c.categoryCode) == Some(e.id)
  {
    IntRoundTrip(e.id);
    Category(Some(sm.supermarketId), None, IntToString(e.id), e.parentName + " / " + e.name, None)
  }

  /** What the loop of `parse_categories` produces from `entries`, in order. */
  function Selected(sm: Supermarket, entries: seq<Entry>): seq<Category>
  {
    if entries == [] then []
    else
      var prev := Selected(sm, entries[..|entries| - 1]);
      var e := entries[|entries| - 1];
      if Kept(e) then prev + [CategoryOf(sm, e)] else prev
  }

  /** `parse_categories(json_data, supermarket)`, given `json_data['categories']`. */
  method ParseCategories(entries: seq<Entry>, sm: Supermarket) returns (r: seq<Category>)
    ensures r == Selected(sm, entries)
  {
    r := [];
    var i := 0;
    while i < |entries|
      invariant 0 <= i <= |entries|
      invariant r == Selected(sm, entries[..i])
    {
      assert entries[..i + 1][..i] == entries[..i];
      var e := entries[i];
      if e.level == 2 {
        if e.parentName in ExcludedParents {
        } else if StartsWith(e.parentName, DiscountPrefix) {
        } else {
          r := r + [CategoryOf(sm, e)];
        }
      }
      i := i + 1;
    }
    assert entries[..|entries|] == entries;
  }

  /** The parser works element by element: two parts of the list parse to the two outputs, joined. */
  lemma {:induction false} SelectedAppend(sm: Supermarket, a: seq<Entry>, b: seq<Entry>)
    ensures Selected(sm, a + b) == Selected(sm, a) + Selected(sm, b)
    decreases |b|
  {
    if b == [] {
      assert a + b == a;
    } else {
      var init := b[..|b| - 1];
      SelectedAppend(sm, a, init);
      assert (a + b)[..|a + b| - 1] == a + init;
    }
  }

  /** A category comes out exactly for a kept entry. */
  lemma {:induction false} SelectedMembers(sm: Supermarket, entries: seq<Entry>)
    ensures forall c :: c in Selected(sm, entries) <==>
      exists e :: e in entries && Kept(e) && c == CategoryOf(sm, e)
  {
    if entries != [] {
      var init := entries[..|entries| - 1];
      SelectedMembers(sm, init);
      assert entries == init + [entries[|entries| - 1]];
    }
  }

  /** Distinct ids give distinct category codes. */
  lemma {:induction false} SelectedDistinct(sm: Supermarket, entries: seq<Entry>)
    requires forall a, b :: 0 <= a < b < |entries| ==> entries[a].id != entries[b].id
    ensures var r := Selected(sm, entries);
      forall a, b :: 0 <= a < b < |r| ==> r[a].categoryCode != r[b].categoryCode
  {
    if entries != [] {
      var init := entries[..|entries| - 1];
      var e := entries[|entries| - 1];
      SelectedDistinct(sm, init);
      SelectedMembers(sm, init);
      forall c | c in Selected(sm, init) ensures c.categoryCode != IntToString(e.id) {
        var x :| x in init && Kept(x) && c == CategoryOf(sm, x);
        if c.categoryCode == IntToString(e.id) {
          IntToStringInjective(x.id, e.id);
          assert false;
        }
      }
      var r := Selected(sm, entries);
      if Kept(e) {
        assert r == Selected(sm, init) + [CategoryOf(sm, e)];
        forall a, b | 0 <= a < b < |r| ensures r[a].categoryCode != r[b].categoryCode {
          if b == |r| - 1 {
            assert r[a] in Selected(sm, init);
          } else {
            assert r[a] == Selected(sm, init)[a] && r[b] == Selected(sm, init)[b];
          }
        }
      } else {
        assert r == Selected(sm, init);
      }
    }
  }

  /** A category under a discount-catalogue section is dropped, whatever its level. */
  lemma DiscountSectionDropped(sm: Supermarket, e: Entry)
    requires StartsWith(e.parentName, DiscountPrefix)
    ensures Selected(sm, [e]) == []
  {
    assert [e][..0] == [];
  }
}
