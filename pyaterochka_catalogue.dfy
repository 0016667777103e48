/**
 * The Pyaterochka catalogue parser. The store's catalogue has two levels;
 * the parser lists every second-level category, top-level category by
 * top-level category.
 */
module PyaterochkaCatalogue {
  import opened Wrappers

  /** A second-level category as the endpoint sends it. */
  datatype Subcategory = Subcategory(id: string, name: string)

  /** A top-level category: only its `subcategories` are read. */
  datatype TopCategory = TopCategory(subcategories: seq<Subcategory>)

  /**
   * The record the parser builds. It carries the store's own id as
   * `inner_code` and neither a supermarket nor a database id.
   */
  datatype InnerCategory = InnerCategory(
    supermarketId: Option<int>,
    categoryId: Option<int>,
    innerCode: string,
    name: string)

  function InnerCategoryOf(s: Subcategory): (c: InnerCategory)
    ensures c.supermarketId == None && c.categoryId == None
    ensures c.innerCode == s.id && c.name == s.name
  {
    InnerCategory(None, None, s.id, s.name)
  }

  /** The categories of one top-level category, in order. */
  function Converted(subs: seq<Subcategory>): (r: seq<InnerCategory>)
    ensures |r| == |subs| && forall j :: 0 <= j < |subs| ==> r[j] == InnerCategoryOf(subs[j])
  {
    seq(|subs|, j requires 0 <= j < |subs| => InnerCategoryOf(subs[j]))
  }

  /** The whole output: the top-level categories' lists, one after the other. */
  function Flattened(tops: seq<TopCategory>): seq<InnerCategory>
  {
    if tops == [] then []
    else Flattened(tops[..|tops| - 1]) + Converted(tops[|tops| - 1].subcategories)
  }

  /** The number of second-level categories. */
  function Total(tops: seq<TopCategory>): nat
  {
    if tops == [] then 0
    else Total(tops[..|tops| - 1]) + |tops[|tops| - 1].subcategories|
  }

  /** `parse_categories(json_data)` */
  method ParseCategories(tops: seq<TopCategory>) returns (r: seq<InnerCategory>)
    ensures r == Flattened(tops)
  {
    r := [];
    var i := 0;
    while i < |tops|
      invariant 0 <= i <= |tops|
      invariant r == Flattened(tops[..i])
    {
      assert tops[..i + 1][..i] == tops[..i];
      var subs := tops[i].subcategories;
      var j := 0;
      while j < |subs|
        invariant 0 <= j <= |subs|
        invariant r == Flattened(tops[..i]) + Converted(subs[..j])
      {
        assert Converted(subs[..j + 1]) == Converted(subs[..j]) + [InnerCategoryOf(subs[j])];
        r := r + [InnerCategoryOf(subs[j])];
        j := j + 1;
      }
      assert subs[..j] == subs;
      i := i + 1;
    }
    assert tops[..|tops|] == tops;
  }

  /** One output per second-level category. */
  lemma {:induction false} FlattenedLength(tops: seq<TopCategory>)
    ensures |Flattened(tops)| == Total(tops)
  {
    if tops != [] {
      FlattenedLength(tops[..|tops| - 1]);
    }
  }

  /** Flattening works top-level category by top-level category. */
  lemma {:induction false} FlattenedAppend(a: seq<TopCategory>, b: seq<TopCategory>)
    ensures Flattened(a + b) == Flattened(a) + Flattened(b)
    decreases |b|
  {
    if b == [] {
      assert a + b == a;
    } else {
      var init := b[..|b| - 1];
      var last := b[|b| - 1];
      FlattenedAppend(a, init);
      assert (a + b)[..|a + b| - 1] == a + init;
      assert (a + b)[|a + b| - 1] == last;
      assert Flattened(a + b) == Flattened(a + init) + Converted(last.subcategories);
      assert Flattened(b) == Flattened(init) + Converted(last.subcategories);
    }
  }

  /** Subcategory `j` of top-level category `i` comes out after all the categories before it. */
  lemma {:induction false} FlattenedPosition(tops: seq<TopCategory>, i: nat, j: nat)
    requires i < |tops| && j < |tops[i].subcategories|
    ensures && Total(tops[..i]) + j < |Flattened(tops)|
            && Flattened(tops)[Total(tops[..i]) + j] == InnerCategoryOf(tops[i].subcategories[j])
  {
    var init := tops[..|tops| - 1];
    FlattenedLength(init);
    if i == |tops| - 1 {
      assert tops[..i] == init;
    } else {
      FlattenedPosition(init, i, j);
      assert init[..i] == tops[..i];
      assert init[i] == tops[i];
    }
  }

  /** Every output is some subcategory, and every subcategory is output. */
  lemma {:induction false} FlattenedMembers(tops: seq<TopCategory>)
    ensures forall c :: c in Flattened(tops) <==>
      exists i, j :: 0 <= i < |tops| && 0 <= j < |tops[i].subcategories| && c == InnerCategoryOf(tops[i].subcategories[j])
  {
    if tops != [] {
      var init := tops[..|tops| - 1];
      var last := tops[|tops| - 1];
      FlattenedMembers(init);
      forall c ensures c in Flattened(tops) <==>
        exists i, j :: 0 <= i < |tops| && 0 <= j < |tops[i].subcategories| && c == InnerCategoryOf(tops[i].subcategories[j])
      {
        if c in Flattened(tops) {
          if c in Flattened(init) {
            var i, j :| 0 <= i < |init| && 0 <= j < |init[i].subcategories| && c == InnerCategoryOf(init[i].subcategories[j]);
            assert tops[i] == init[i];
          } else {
            var j :| 0 <= j < |last.subcategories| && Converted(last.subcategories)[j] == c;
          }
        }
        if exists i, j :: 0 <= i < |tops| && 0 <= j < |tops[i].subcategories| && c == InnerCategoryOf(tops[i].subcategories[j]) {
          var i, j :| 0 <= i < |tops| && 0 <= j < |tops[i].subcategories| && c == InnerCategoryOf(tops[i].subcategories[j]);
          if i < |tops| - 1 {
            assert init[i] == tops[i];
          } else {
            assert Converted(last.subcategories)[j] == c;
          }
        }
      }
    }
  }
}
