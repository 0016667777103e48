/**
 * The Magnit catalogue parser. The catalogue page embeds a flat JSON list in
 * which a category is a marker string `g<id>` right after a dictionary whose
 * `name`, `parentKey` and `children` values are indices back into the same
 * list. The parser collects those dictionaries, walks each category up to
 * its top-level ancestor to build a `parent / ... / child` name, keeps the
 * leaves below at least one parent and drops promotional sections.
 */
module MagnitCatalogue {
  import opened Wrappers
  import opened Json
  import opened Text
  import opened Common

  // ---------------------------------------------------------------- collect_category_info

  /** A category's entry in the collected dictionary. */
  datatype Details = Details(name: string, parentId: int, children: Json)

  /** A Python `dict` keyed by category id: its keys in insertion order, and its entries. */
  datatype CategoryInfo = CategoryInfo(order: seq<int>, rows: map<int, Details>)

  /** Every key listed is a key of the dictionary. */
  predicate Listed(d: CategoryInfo)
  {
    forall i :: 0 <= i < |d.order| ==> d.order[i] in d.rows
  }

  /** The listing is the dictionary's keys, each once. */
  ghost predicate WellFormed(d: CategoryInfo)
  {
    && Listed(d)
    && (forall i, j :: 0 <= i < j < |d.order| ==> d.order[i] != d.order[j])
    && |d.rows| == |d.order|
  }

  const Empty := CategoryInfo([], map[])

  /** `d[k] = v`: a key already present keeps its position, a new key goes last. */
  function Put(d: CategoryInfo, k: int, v: Details): (r: CategoryInfo)
    ensures r.rows == d.rows[k := v]
    ensures k in d.rows ==> r.order == d.order
    ensures k !in d.rows ==> r.order == d.order + [k]
  {
    if k in d.rows then CategoryInfo(d.order, d.rows[k := v])
    else CategoryInfo(d.order + [k], d.rows[k := v])
  }

  lemma PutWellFormed(d: CategoryInfo, k: int, v: Details)
    requires WellFormed(d)
    ensures WellFormed(Put(d, k, v))
  {
  }

  /**
   * `re.match(r'^g\d+$', s)`: "g" and one or more digits; `$` also matches
   * before a final newline.
   */
  predicate IsMarker(s: string)
  {
    && |s| >= 2 && s[0] == 'g'
    && (AllDigits(s[1..]) || (|s| >= 3 && s[|s| - 1] == '\n' && AllDigits(s[1..|s| - 1])))
  }

  /** The digits of a marker, without its "g" and its final newline. */
  function MarkerDigits(s: string): (d: string)
    requires IsMarker(s)
    ensures d != [] && AllDigits(d)
  {
    if AllDigits(s[1..]) then s[1..] else s[1..|s| - 1]
  }

  /** `int(item[1:])` never raises on a marker: it reads the marker's digits. */
  lemma MarkerId(s: string)
    requires IsMarker(s)
    ensures PyInt(s[1..]) == Some(DigitsValue(MarkerDigits(s)))
  {
    var d := MarkerDigits(s);
    if AllDigits(s[1..]) {
      assert d == s[1..] && d + "" == d;
      PyIntOfDigits(d, "");
    } else {
      assert d == s[1..|s| - 1] && d + "\n" == s[1..];
      PyIntOfDigits(d, "\n");
    }
  }

  /** `json_data[d[key]]`: the key must be present, its value an index, and the index in range. */
  function Deref(json: seq<Json>, d: map<string, Json>, key: string): (r: Result<Json, PyError>)
  {
    if key !in d then Failure(KeyError)
    else match AsIndex(d[key])
      case None => Failure(TypeError)
      case Some(i) =>
        match PyIndex(json, i)
        case None => Failure(IndexError)
        case Some(v) => Success(v)
  }

  /** `s[1:]`, which is empty for the empty string. */
  function Tail(s: string): string
  {
    if s == [] then [] else s[1..]
  }

  /**
   * The details read through the dictionary `d`: `name` (stripped, so it
   * must be a string), `parentKey` (a string whose tail is an integer) and
   * `children` (any value), in that order.
   */
  function ReadDetails(json: seq<Json>, d: map<string, Json>): (r: Result<Details, PyError>)
    ensures r.Success? ==> r.value.name == [] || (!IsSpace(r.value.name[0]) && !IsSpace(r.value.name[|r.value.name| - 1]))
  {
    match Deref(json, d, "name")
    case Failure(e) => Failure(e)
    case Success(name) =>
      if !name.JStr? then Failure(AttributeError)
      else
        match Deref(json, d, "parentKey")
        case Failure(e) => Failure(e)
        case Success(parent) =>
          if !parent.JStr? then Failure(TypeError)
          else
            match PyInt(Tail(parent.s))
            case None => Failure(ValueError)
            case Some(parentId) =>
              match Deref(json, d, "children")
              case Failure(e) => Failure(e)
              case Success(children) => Success(Details(Strip(name.s), parentId, children))
  }

  /** `json_data[i - 1]`: the element before position `i`, which is the last one when `i` is 0. */
  function Preceding(json: seq<Json>, i: nat): Json
    requires i < |json|
  {
    if i == 0 then json[|json| - 1] else json[i - 1]
  }

  /** `Preceding` is Python's indexing at `i - 1`, which never raises for a position of the list. */
  lemma PrecedingIsPyIndex(json: seq<Json>, i: nat)
    requires i < |json|
    ensures PyIndex(json, i - 1) == Some(Preceding(json, i))
  {
  }

  /**
   * The element at `p` seen as a category: a marker string, with its id and
   * the dictionary right before the FIRST occurrence of that string
   * (`json_data.index(item) - 1`, which is the last element when the
   * string comes first). None when `json[p]` is no marker or that element
   * is no dictionary: the loop skips it.
   */
  function MarkerInfo(json: seq<Json>, p: nat): (r: Option<(int, map<string, Json>)>)
    requires p < |json|
    ensures r.Some? ==> r.value.0 >= 0
  {
    var item := json[p];
    if !item.JStr? || !IsMarker(item.s) then None
    else
      var id := DigitsValue(MarkerDigits(item.s));
      var info := Preceding(json, FirstIndex(json, item));
      if info.JObj? then Some((id, info.fields)) else None
  }

  /** How the loop reads one category dictionary: `ReadDetails` in the parser. */
  type Reader = map<string, Json> -> Result<Details, PyError>

  function DetailsReader(json: seq<Json>): Reader
  {
    fields => ReadDetails(json, fields)
  }

  /** One turn of the loop of `collect_category_info`, at element `p`. */
  function CollectStep(json: seq<Json>, read: Reader, d: CategoryInfo, p: nat): (r: Result<CategoryInfo, PyError>)
    requires p < |json|
  {
    match MarkerInfo(json, p)
    case None => Success(d)
    case Some((id, fields)) =>
      match read(fields)
      case Failure(e) => Failure(e)
      case Success(details) => Success(Put(d, id, details))
  }

  /** The loop of `collect_category_info` over the first `n` elements, reading dictionaries with `read`. */
  function CollectedBy(json: seq<Json>, read: Reader, n: nat): (r: Result<CategoryInfo, PyError>)
    requires n <= |json|
  {
    if n == 0 then Success(Empty)
    else
      match CollectedBy(json, read, n - 1)
      case Failure(e) => Failure(e)
      case Success(d) => CollectStep(json, read, d, n - 1)
  }

  /** `collect_category_info(json_data)` */
  method CollectCategoryInfo(json: seq<Json>) returns (r: Result<CategoryInfo, PyError>)
    ensures r == CollectedBy(json, DetailsReader(json), |json|)
  {
    r := CollectWith(json, DetailsReader(json));
  }

  /** The loop of `collect_category_info`, reading each category dictionary with `read`. */
  method CollectWith(json: seq<Json>, read: Reader) returns (r: Result<CategoryInfo, PyError>)
    ensures r == CollectedBy(json, read, |json|)
  {
    var d := Empty;
    var p := 0;
    while p < |json|
      invariant 0 <= p <= |json|
      invariant CollectedBy(json, read, p) == Success(d)
    {
      CollectedByStep(json, read, p, d);
      var marker := MarkerInfo(json, p);
      if marker.Some? {
        var details := read(marker.value.1);
        if details.Failure? {
          CollectedFailurePersists(json, read, p + 1, |json|);
          return Failure(details.error);
        }
        d := Put(d, marker.value.0, details.value);
      }
      p := p + 1;
    }
    r := Success(d);
  }

  /** One more turn of the loop. */
  lemma CollectedByStep(json: seq<Json>, read: Reader, p: nat, d: CategoryInfo)
    requires p < |json| && CollectedBy(json, read, p) == Success(d)
    ensures CollectedBy(json, read, p + 1) == CollectStep(json, read, d, p)
  {
  }

  /** The collected dictionary lists each of its keys once, in insertion order. */
  lemma {:induction false} CollectedWellFormed(json: seq<Json>, read: Reader, n: nat)
    requires n <= |json| && CollectedBy(json, read, n).Success?
    ensures WellFormed(CollectedBy(json, read, n).value)
  {
    if n > 0 {
      CollectedWellFormed(json, read, n - 1);
      var d := CollectedBy(json, read, n - 1).value;
      if MarkerInfo(json, n - 1).Some? {
        PutWellFormed(d, MarkerInfo(json, n - 1).value.0, read(MarkerInfo(json, n - 1).value.1).value);
      }
    }
  }

  /**
   * Dictionary order is insertion order: the keys listed after the first
   * `k` elements keep their places at the head of the listing after `n`.
   */
  lemma {:induction false} CollectedOrderGrows(json: seq<Json>, read: Reader, k: nat, n: nat)
    requires k <= n <= |json| && CollectedBy(json, read, n).Success?
    ensures CollectedBy(json, read, k).Success?
    ensures var before := CollectedBy(json, read, k).value.order;
      var after := CollectedBy(json, read, n).value.order;
      |before| <= |after| && after[..|before|] == before
    decreases n
  {
    if k < n {
      assert CollectedBy(json, read, n - 1).Success?;
      CollectedOrderGrows(json, read, k, n - 1);
      var before := CollectedBy(json, read, k).value.order;
      var mid := CollectedBy(json, read, n - 1).value.order;
      var after := CollectedBy(json, read, n).value.order;
      assert after == mid || (|after| == |mid| + 1 && after[..|mid|] == mid);
      assert after[..|before|] == mid[..|before|];
    }
  }

  /** A marker whose id is not collected yet puts that id at the end of the listing. */
  lemma CollectedNewKeyLast(json: seq<Json>, read: Reader, p: nat)
    requires p < |json| && CollectedBy(json, read, p + 1).Success? && MarkerInfo(json, p).Some?
    requires MarkerInfo(json, p).value.0 !in CollectedBy(json, read, p).value.rows
    ensures CollectedBy(json, read, p + 1).value.order == CollectedBy(json, read, p).value.order + [MarkerInfo(json, p).value.0]
  {
  }

  /** Once a dictionary fails to read, the whole collection fails with its error. */
  lemma {:induction false} CollectedFailurePersists(json: seq<Json>, read: Reader, k: nat, n: nat)
    requires k <= n <= |json| && CollectedBy(json, read, k).Failure?
    ensures CollectedBy(json, read, n) == CollectedBy(json, read, k)
    decreases n
  {
    if n > k {
      CollectedFailurePersists(json, read, k, n - 1);
    }
  }

  /** The collection succeeds exactly when every category dictionary among the first `n` elements reads. */
  lemma {:induction false} CollectedSucceeds(json: seq<Json>, read: Reader, n: nat)
    requires n <= |json|
    ensures CollectedBy(json, read, n).Success? <==>
      forall p :: 0 <= p < n && MarkerInfo(json, p).Some? ==> read(MarkerInfo(json, p).value.1).Success?
  {
    if n > 0 {
      CollectedSucceeds(json, read, n - 1);
    }
  }

  /** The ids collected are exactly the ids of the markers that follow a dictionary. */
  lemma CollectedKeys(json: seq<Json>, read: Reader, n: nat)
    requires n <= |json| && CollectedBy(json, read, n).Success?
    ensures forall k :: k in CollectedBy(json, read, n).value.rows <==>
      exists p :: 0 <= p < n && MarkerInfo(json, p).Some? && MarkerInfo(json, p).value.0 == k
  {
    CollectedKeysSound(json, read, n);
    CollectedKeysComplete(json, read, n);
  }

  /** Every id collected is the id of a marker among the first `n` elements. */
  lemma {:induction false} CollectedKeysSound(json: seq<Json>, read: Reader, n: nat)
    requires n <= |json| && CollectedBy(json, read, n).Success?
    ensures forall k :: k in CollectedBy(json, read, n).value.rows ==>
      exists p :: 0 <= p < n && MarkerInfo(json, p).Some? && MarkerInfo(json, p).value.0 == k
  {
    if n > 0 {
      CollectedKeysSound(json, read, n - 1);
      var d := CollectedBy(json, read, n - 1).value;
      CollectedByStep(json, read, n - 1, d);
      forall k | k in CollectedBy(json, read, n).value.rows
        ensures exists p :: 0 <= p < n && MarkerInfo(json, p).Some? && MarkerInfo(json, p).value.0 == k
      {
        if k !in d.rows {
          assert MarkerInfo(json, n - 1).Some? && MarkerInfo(json, n - 1).value.0 == k;
        } else {
          var p :| 0 <= p < n - 1 && MarkerInfo(json, p).Some? && MarkerInfo(json, p).value.0 == k;
        }
      }
    }
  }

  /** The id of every marker among the first `n` elements is collected. */
  lemma {:induction false} CollectedKeysComplete(json: seq<Json>, read: Reader, n: nat)
    requires n <= |json| && CollectedBy(json, read, n).Success?
    ensures forall p :: 0 <= p < n && MarkerInfo(json, p).Some? ==> MarkerInfo(json, p).value.0 in CollectedBy(json, read, n).value.rows
  {
    if n > 0 {
      CollectedKeysComplete(json, read, n - 1);
      var d := CollectedBy(json, read, n - 1).value;
      CollectedByStep(json, read, n - 1, d);
      assert d.rows.Keys <= CollectedBy(json, read, n).value.rows.Keys;
    }
  }

  /** A category holds the details of its LAST marker: a later one with the same id overwrites. */
  lemma {:induction false} CollectedLast(json: seq<Json>, read: Reader, n: nat, p: nat)
    requires p < n <= |json| && CollectedBy(json, read, n).Success? && MarkerInfo(json, p).Some?
    requires forall q :: p < q < n && MarkerInfo(json, q).Some? ==> MarkerInfo(json, q).value.0 != MarkerInfo(json, p).value.0
    ensures var (k, fields) := MarkerInfo(json, p).value;
      && read(fields).Success?
      && k in CollectedBy(json, read, n).value.rows
      && CollectedBy(json, read, n).value.rows[k] == read(fields).value
  {
    if p < n - 1 {
      CollectedLast(json, read, n - 1, p);
    }
  }

  // ---------------------------------------------------------------- construct_full_name

  /** `chain` lists collected categories, each the parent of the next, with no id twice. */
  ghost predicate Chain(rows: map<int, Details>, chain: seq<int>)
  {
    && chain != []
    && (forall i :: 0 <= i < |chain| ==> chain[i] in rows)
    && (forall i :: 0 <= i < |chain| - 1 ==> rows[chain[i + 1]].parentId == chain[i])
    && (forall i, j :: 0 <= i < j < |chain| ==> chain[i] != chain[j])
  }

  /** `not parent_id or parent_id == id_`: a category where the walk up stops. */
  predicate IsTop(rows: map<int, Details>, id: int)
    requires id in rows
  {
    rows[id].parentId == 0 || rows[id].parentId == id
  }

  /** The full ancestry of its last element: from a top category down, through no other top category. */
  ghost predicate Ancestry(rows: map<int, Details>, chain: seq<int>)
  {
    && Chain(rows, chain)
    && IsTop(rows, chain[0])
    && (forall i :: 0 < i < |chain| ==> !IsTop(rows, chain[i]))
  }

  /**
   * `get_parents(id_, result)` with `acc` the list built so far (its head
   * is `id_`). A parent that is not collected raises KeyError; a parent
   * already on the list means the walk would go round forever, which
   * Python ends with RecursionError.
   */
  function GetParents(rows: map<int, Details>, acc: seq<int>): (r: Result<seq<int>, PyError>)
    requires acc != [] && forall i :: 0 <= i < |acc| ==> acc[i] in rows
    ensures r.Success? ==> |acc| <= |r.value| && r.value[|r.value| - |acc|..] == acc
    ensures r.Success? ==> forall i :: 0 <= i < |r.value| ==> r.value[i] in rows
    decreases rows.Keys - Members(acc)
  {
    var id := acc[0];
    var parent := rows[id].parentId;
    if parent == 0 || parent == id then Success(acc)
    else if parent in acc then Failure(RecursionError)
    else if parent !in rows then Failure(KeyError)
    else
      assert Members([parent] + acc) == Members(acc) + {parent};
      GetParents(rows, [parent] + acc)
  }

  ghost function Members(xs: seq<int>): (r: set<int>)
    ensures forall x :: x in r <==> x in xs
  {
    set x | x in xs
  }

  /** What the walk returns is the full ancestry of the category it started from. */
  lemma {:induction false} GetParentsSound(rows: map<int, Details>, acc: seq<int>)
    requires Chain(rows, acc) && forall i :: 0 < i < |acc| ==> !IsTop(rows, acc[i])
    ensures GetParents(rows, acc).Success? ==> Ancestry(rows, GetParents(rows, acc).value)
    decreases rows.Keys - Members(acc)
  {
    var id := acc[0];
    var parent := rows[id].parentId;
    if !(parent == 0 || parent == id) && parent !in acc && parent in rows {
      var next := [parent] + acc;
      assert Members(next) == Members(acc) + {parent};
      assert forall i :: 0 < i < |next| ==> next[i] == acc[i - 1];
      GetParentsSound(rows, next);
    }
  }

  /** Every ancestry ending in a suffix `acc` of it is what the walk from `acc` finds. */
  lemma {:induction false} GetParentsComplete(rows: map<int, Details>, chain: seq<int>, k: nat)
    requires Ancestry(rows, chain) && 0 < k <= |chain|
    ensures GetParents(rows, chain[|chain| - k..]) == Success(chain)
    decreases |chain| - k
  {
    var acc := chain[|chain| - k..];
    if k < |chain| {
      GetParentsComplete(rows, chain, k + 1);
      var parent := chain[|chain| - k - 1];
      assert chain[|chain| - k - 1..] == [parent] + acc;
      assert acc[0] == chain[|chain| - k];
      assert !IsTop(rows, acc[0]);
      assert parent !in acc by {
        forall i | 0 <= i < |acc| ensures acc[i] != parent {
          assert acc[i] == chain[|chain| - k + i];
        }
      }
    } else {
      assert acc == chain;
    }
  }

  /** `get_parents(id)` succeeds with `chain` exactly when `chain` is the full ancestry of `id`. */
  lemma GetParentsIsAncestry(rows: map<int, Details>, id: int, chain: seq<int>)
    requires id in rows
    ensures GetParents(rows, [id]) == Success(chain) <==> Ancestry(rows, chain) && chain[|chain| - 1] == id
  {
    if Ancestry(rows, chain) && chain[|chain| - 1] == id {
      GetParentsComplete(rows, chain, 1);
      assert chain[|chain| - 1..] == [id];
    }
    if GetParents(rows, [id]) == Success(chain) {
      GetParentsFromOne(rows, id);
    }
  }

  /** The walk from one category, when it succeeds, ends at that category. */
  lemma GetParentsFromOne(rows: map<int, Details>, id: int)
    requires id in rows && GetParents(rows, [id]).Success?
    ensures var chain := GetParents(rows, [id]).value;
      Ancestry(rows, chain) && chain[|chain| - 1] == id
  {
    assert Chain(rows, [id]);
    GetParentsSound(rows, [id]);
  }

  /** The result of `construct_full_name` for one category. */
  datatype Named = Named(id: int, parents: seq<int>, fullName: string)

  /** The names of the categories `ids`. */
  function Names(rows: map<int, Details>, ids: seq<int>): (r: seq<string>)
    requires forall i :: 0 <= i < |ids| ==> ids[i] in rows
    ensures |r| == |ids| && forall i :: 0 <= i < |ids| ==> r[i] == rows[ids[i]].name
  {
    seq(|ids|, i requires 0 <= i < |ids| => rows[ids[i]].name)
  }

  /** `' / '.join(...)` of the names along an ancestry. */
  function FullName(rows: map<int, Details>, chain: seq<int>): string
    requires forall i :: 0 <= i < |chain| ==> chain[i] in rows
  {
    Join(Names(rows, chain), " / ")
  }

  /** The final filter: a leaf (falsy `children`) below at least one parent. */
  predicate Kept(d: Details, parents: seq<int>)
  {
    |parents| > 1 && !Truthy(d.children)
  }

  /**
   * The walk and full name of one category: the walk's error, or the
   * entry when the final filter keeps it, or nothing.
   */
  function Entry(rows: map<int, Details>, id: int): (r: Result<Option<Named>, PyError>)
    requires id in rows
  {
    match GetParents(rows, [id])
    case Failure(e) => Failure(e)
    case Success(parents) =>
      Success(if Kept(rows[id], parents) then Some(Named(id, parents, FullName(rows, parents))) else None)
  }

  /** A kept entry is a leaf with its full ancestry and the joined names along it. */
  lemma EntrySound(rows: map<int, Details>, id: int)
    requires id in rows && Entry(rows, id).Success? && Entry(rows, id).value.Some?
    ensures var e := Entry(rows, id).value.value;
      && e.id == id
      && Ancestry(rows, e.parents) && e.parents[|e.parents| - 1] == id
      && Kept(rows[id], e.parents)
      && e.fullName == FullName(rows, e.parents)
  {
    GetParentsIsAncestry(rows, id, GetParents(rows, [id]).value);
  }

  /** Every leaf below at least one parent whose walk succeeds is kept. */
  lemma EntryComplete(rows: map<int, Details>, id: int)
    requires id in rows && GetParents(rows, [id]).Success?
    ensures Entry(rows, id).Success?
    ensures Entry(rows, id).value.Some? <==> Kept(rows[id], GetParents(rows, [id]).value)
  {
  }

  /** `construct_full_name` over the first `n` keys, in insertion order. */
  function FullNames(info: CategoryInfo, n: nat): (r: Result<seq<Named>, PyError>)
    requires Listed(info) && n <= |info.order|
  {
    if n == 0 then Success([])
    else
      match FullNames(info, n - 1)
      case Failure(e) => Failure(e)
      case Success(prev) =>
        match Entry(info.rows, info.order[n - 1])
        case Failure(e) => Failure(e)
        case Success(o) => Success(if o.Some? then prev + [o.value] else prev)
  }

  /** One more key: its entry, if any, is appended. */
  lemma FullNamesStep(info: CategoryInfo, n: nat)
    requires Listed(info) && 0 < n <= |info.order| && FullNames(info, n - 1).Success?
    requires GetParents(info.rows, [info.order[n - 1]]).Success?
    ensures Entry(info.rows, info.order[n - 1]).Success?
    ensures var o := Entry(info.rows, info.order[n - 1]).value;
      FullNames(info, n) == Success(if o.Some? then FullNames(info, n - 1).value + [o.value] else FullNames(info, n - 1).value)
  {
  }

  /** When the walk succeeds for each of the first `n` keys, so does the construction. */
  lemma {:induction false} FullNamesSucceed(info: CategoryInfo, n: nat)
    requires Listed(info) && n <= |info.order|
    requires forall j :: 0 <= j < n ==> Entry(info.rows, info.order[j]).Success?
    ensures FullNames(info, n).Success?
  {
    if n > 0 {
      FullNamesSucceed(info, n - 1);
    }
  }

  /** The first key whose walk fails makes the whole construction fail with its error. */
  lemma {:induction false} FullNamesFail(info: CategoryInfo, i: nat, n: nat)
    requires Listed(info) && i < n <= |info.order|
    requires forall j :: 0 <= j < i ==> Entry(info.rows, info.order[j]).Success?
    requires Entry(info.rows, info.order[i]).Failure?
    ensures FullNames(info, n) == Failure(Entry(info.rows, info.order[i]).error)
  {
    if n - 1 > i {
      FullNamesFail(info, i, n - 1);
    } else {
      FullNamesSucceed(info, i);
    }
  }

  lemma EntriesSucceed(info: CategoryInfo, i: nat)
    requires Listed(info) && i <= |info.order|
    requires forall j :: 0 <= j < i ==> GetParents(info.rows, [info.order[j]]).Success?
    ensures forall j :: 0 <= j < i ==> Entry(info.rows, info.order[j]).Success?
  {
  }

  /**
   * The first loop of `construct_full_name`: the walk from every key, or
   * the error of the first walk that fails.
   */
  method WalkAll(info: CategoryInfo) returns (r: Result<map<int, seq<int>>, PyError>)
    requires Listed(info)
    ensures r.Failure? ==> FullNames(info, |info.order|) == Failure(r.error)
    ensures r.Success? ==> forall j :: 0 <= j < |info.order| ==>
      info.order[j] in r.value && GetParents(info.rows, [info.order[j]]) == Success(r.value[info.order[j]])
  {
    var parents: map<int, seq<int>> := map[];
    var i := 0;
    while i < |info.order|
      invariant 0 <= i <= |info.order|
      invariant forall j :: 0 <= j < i ==>
        info.order[j] in parents && GetParents(info.rows, [info.order[j]]) == Success(parents[info.order[j]])
    {
      var id := info.order[i];
      var walk := GetParents(info.rows, [id]);
      if walk.Failure? {
        EntriesSucceed(info, i);
        FullNamesFail(info, i, |info.order|);
        return Failure(walk.error);
      }
      parents := parents[id := walk.value];
      i := i + 1;
    }
    r := Success(parents);
  }

  /** `construct_full_name(category_info)` */
  method ConstructFullName(info: CategoryInfo) returns (r: Result<seq<Named>, PyError>)
    requires Listed(info)
    ensures r == FullNames(info, |info.order|)
  {
    var walks := WalkAll(info);
    if walks.Failure? {
      return Failure(walks.error);
    }
    var parents := walks.value;
    var named: seq<Named> := [];
    var i := 0;
    while i < |info.order|
      invariant 0 <= i <= |info.order|
      invariant FullNames(info, i) == Success(named)
    {
      var id := info.order[i];
      var chain := parents[id];
      FullNamesStep(info, i + 1);
      if Kept(info.rows[id], chain) {
        named := named + [Named(id, chain, FullName(info.rows, chain))];
      }
      i := i + 1;
    }
    r := Success(named);
  }

  /**
   * Every entry kept is a collected leaf with its full ancestry (at least
   * one parent) and the joined names of that ancestry.
   */
  lemma {:induction false} FullNamesEntries(info: CategoryInfo, n: nat)
    requires Listed(info) && n <= |info.order| && FullNames(info, n).Success?
    ensures forall e :: e in FullNames(info, n).value ==>
      exists j :: 0 <= j < n && info.order[j] == e.id && Entry(info.rows, e.id) == Success(Some(e))
  {
    if n > 0 {
      FullNamesEntries(info, n - 1);
    }
  }

  /** Every collected leaf below at least one parent is kept. */
  lemma {:induction false} FullNamesComplete(info: CategoryInfo, n: nat, j: nat)
    requires Listed(info) && j < n <= |info.order| && FullNames(info, n).Success?
    requires Entry(info.rows, info.order[j]).Success? && Entry(info.rows, info.order[j]).value.Some?
    ensures Entry(info.rows, info.order[j]).value.value in FullNames(info, n).value
  {
    if j < n - 1 {
      FullNamesComplete(info, n - 1, j);
    }
  }

  /** Each category appears at most once. */
  lemma {:induction false} FullNamesDistinct(info: CategoryInfo, n: nat)
    requires Listed(info) && n <= |info.order| && FullNames(info, n).Success?
    requires forall a, b :: 0 <= a < b < |info.order| ==> info.order[a] != info.order[b]
    ensures var r := FullNames(info, n).value;
      forall a, b :: 0 <= a < b < |r| ==> r[a].id != r[b].id
  {
    if n > 0 {
      FullNamesDistinct(info, n - 1);
      FullNamesEntries(info, n - 1);
      var prev := FullNames(info, n - 1).value;
      FullNamesStep(info, n);
      forall e | e in prev ensures e.id != info.order[n - 1] {
        var k :| 0 <= k < n - 1 && info.order[k] == e.id && Entry(info.rows, e.id) == Success(Some(e));
      }
      var o := Entry(info.rows, info.order[n - 1]).value;
      if o.Some? {
        assert o.value.id == info.order[n - 1];
      }
    }
  }

  // ---------------------------------------------------------------- parse_categories

  /** The promotional sections the parser drops, matched at the start of the full name. */
  const ExcludedPrefixes: seq<string> :=
    ["Не забудьте заказать", "Покупайте с выгодой", "Промокод Магнит", "Создаём праздник"]

  /**
   * `to_exclude.search(full_name)`: every alternative is anchored with `^`
   * and the pattern has no MULTILINE flag, so it matches only at the start.
   */
  predicate Excluded(name: string)
  {
    exists i :: 0 <= i < |ExcludedPrefixes| && StartsWith(name, ExcludedPrefixes[i])
  }

  /** The category the parser builds for a kept entry: no database id yet, the id as its code. */
  function CategoryOf(sm: Supermarket, e: Named): (c: Category)
    ensures c.supermarketId == Some(sm.supermarketId) && c.categoryId == None && c.lastScrapedOn == None
    ensures c.name == e.fullName && PyInt(c.categoryCode) == Some(e.id)
  {
    IntRoundTrip(e.id);
    Category(Some(sm.supermarketId), None, IntToString(e.id), e.fullName, None)
  }

  /** The loop of `parse_categories` over `entries`, in order. */
  function Selected(sm: Supermarket, entries: seq<Named>): seq<Category>
  {
    if entries == [] then []
    else
      var prev := Selected(sm, entries[..|entries| - 1]);
      var e := entries[|entries| - 1];
      if Excluded(e.fullName) then prev else prev + [CategoryOf(sm, e)]
  }

  /** `parse_categories` as a value, reading category dictionaries with `read`. */
  function ParsedBy(json: seq<Json>, read: Reader, sm: Supermarket): Result<seq<Category>, PyError>
  {
    match CollectedBy(json, read, |json|)
    case Failure(e) => Failure(e)
    case Success(info) =>
      CollectedWellFormed(json, read, |json|);
      match FullNames(info, |info.order|)
      case Failure(e) => Failure(e)
      case Success(entries) => Success(Selected(sm, entries))
  }

  /** `parse_categories(json_data, supermarket)` as a value. */
  function Parsed(json: seq<Json>, sm: Supermarket): Result<seq<Category>, PyError>
  {
    ParsedBy(json, DetailsReader(json), sm)
  }

  /** `parse_categories(json_data, supermarket)` */
  method ParseCategories(json: seq<Json>, sm: Supermarket) returns (r: Result<seq<Category>, PyError>)
    ensures r == Parsed(json, sm)
  {
    r := ParseWith(json, DetailsReader(json), sm);
  }

  /** The body of `parse_categories`, reading each category dictionary with `read`. */
  method ParseWith(json: seq<Json>, read: Reader, sm: Supermarket) returns (r: Result<seq<Category>, PyError>)
    ensures r == ParsedBy(json, read, sm)
  {
    var collected := CollectWith(json, read);
    if collected.Failure? {
      return Failure(collected.error);
    }
    var info := collected.value;
    CollectedWellFormed(json, read, |json|);
    var named := ConstructFullName(info);
    if named.Failure? {
      return Failure(named.error);
    }
    var entries := named.value;
    var out := SelectCategories(sm, entries);
    r := Success(out);
  }

  /** The loop of `parse_categories` that turns the kept entries into categories. */
  method SelectCategories(sm: Supermarket, entries: seq<Named>) returns (out: seq<Category>)
    ensures out == Selected(sm, entries)
  {
    out := [];
    var i := 0;
    while i < |entries|
      invariant 0 <= i <= |entries|
      invariant out == Selected(sm, entries[..i])
    {
      assert entries[..i + 1][..i] == entries[..i];
      var e := entries[i];
      if !Excluded(e.fullName) {
        out := out + [CategoryOf(sm, e)];
      }
      i := i + 1;
    }
    assert entries[..|entries|] == entries;
  }

  /** A category is produced exactly for an entry whose full name is not excluded. */
  lemma {:induction false} SelectedMembers(sm: Supermarket, entries: seq<Named>)
    ensures forall c :: c in Selected(sm, entries) <==>
      exists e :: e in entries && !Excluded(e.fullName) && c == CategoryOf(sm, e)
  {
    if entries != [] {
      var init := entries[..|entries| - 1];
      var last := entries[|entries| - 1];
      SelectedMembers(sm, init);
      assert entries == init + [last];
      var prev := Selected(sm, init);
      var r := Selected(sm, entries);
      forall c | c in r
        ensures exists e :: e in entries && !Excluded(e.fullName) && c == CategoryOf(sm, e)
      {
        if c in prev {
          var e :| e in init && !Excluded(e.fullName) && c == CategoryOf(sm, e);
          assert e in entries;
        } else {
          assert last in entries;
        }
      }
      forall c | exists e :: e in entries && !Excluded(e.fullName) && c == CategoryOf(sm, e)
        ensures c in r
      {
        var e :| e in entries && !Excluded(e.fullName) && c == CategoryOf(sm, e);
        if e != last {
          assert e in init;
        }
      }
    }
  }

  /** Every category produced comes from an entry, in the same order: its code is that entry's id. */
  lemma {:induction false} SelectedCodes(sm: Supermarket, entries: seq<Named>)
    ensures forall c :: c in Selected(sm, entries) ==>
      exists j :: 0 <= j < |entries| && c.categoryCode == IntToString(entries[j].id)
    ensures |Selected(sm, entries)| <= |entries|
  {
    if entries != [] {
      SelectedCodes(sm, entries[..|entries| - 1]);
    }
  }

  /** Distinct entries give distinct category codes. */
  lemma {:induction false} SelectedDistinct(sm: Supermarket, entries: seq<Named>)
    requires forall a, b :: 0 <= a < b < |entries| ==> entries[a].id != entries[b].id
    ensures var r := Selected(sm, entries);
      forall a, b :: 0 <= a < b < |r| ==> r[a].categoryCode != r[b].categoryCode
  {
    if entries != [] {
      var init := entries[..|entries| - 1];
      var e := entries[|entries| - 1];
      SelectedDistinct(sm, init);
      var prev := Selected(sm, init);
      var r := Selected(sm, entries);
      if !Excluded(e.fullName) {
        SelectedCodes(sm, init);
        assert r == prev + [CategoryOf(sm, e)];
        forall a, b | 0 <= a < b < |r| ensures r[a].categoryCode != r[b].categoryCode {
          if b == |r| - 1 {
            assert r[a] in prev;
            var j :| 0 <= j < |init| && r[a].categoryCode == IntToString(init[j].id);
            if r[a].categoryCode == r[b].categoryCode {
              IntToStringInjective(init[j].id, e.id);
              assert false;
            }
          } else {
            assert r[a] == prev[a] && r[b] == prev[b];
          }
        }
      } else {
        assert r == prev;
      }
    }
  }

  /**
   * The parser's output, in terms of the collected dictionary: a category
   * comes out exactly for a collected leaf below at least one parent whose
   * joined name is not excluded; it is named after its full ancestry and
   * coded by its id, and no code comes out twice.
   */
  lemma ParsedCategories(json: seq<Json>, read: Reader, sm: Supermarket, info: CategoryInfo)
    requires CollectedBy(json, read, |json|) == Success(info)
    requires ParsedBy(json, read, sm).Success?
    ensures Listed(info)
    ensures forall c :: c in ParsedBy(json, read, sm).value <==>
      exists j :: 0 <= j < |info.order| && Entry(info.rows, info.order[j]).Success?
        && Entry(info.rows, info.order[j]).value.Some?
        && var e := Entry(info.rows, info.order[j]).value.value;
          !Excluded(e.fullName) && c == CategoryOf(sm, e)
    ensures var r := ParsedBy(json, read, sm).value;
      forall a, b :: 0 <= a < b < |r| ==> r[a].categoryCode != r[b].categoryCode
  {
    CollectedWellFormed(json, read, |json|);
    var n := |info.order|;
    var entries := FullNames(info, n).value;
    SelectedMembers(sm, entries);
    FullNamesEntries(info, n);
    FullNamesDistinct(info, n);
    assert ParsedBy(json, read, sm).value == Selected(sm, entries);
    SelectedDistinct(sm, entries);
    forall j | 0 <= j < n && Entry(info.rows, info.order[j]).Success? && Entry(info.rows, info.order[j]).value.Some?
      ensures Entry(info.rows, info.order[j]).value.value in entries
    {
      FullNamesComplete(info, n, j);
    }
  }

  /**
   * The categories of the page in the two-level example shape: a
   * top-level section and a leaf below it give one category, named
   * "section / leaf" and coded by the leaf's id.
   */
  lemma TwoLevelExample(sm: Supermarket)
    ensures var rows := map[1 := Details("Молоко", 0, JList([JInt(2)])), 2 := Details("Кефир", 1, JList([]))];
      var info := CategoryInfo([1, 2], rows);
      FullNames(info, 2) == Success([Named(2, [1, 2], "Молоко / Кефир")])
  {
    var rows := map[1 := Details("Молоко", 0, JList([JInt(2)])), 2 := Details("Кефир", 1, JList([]))];
    assert GetParents(rows, [1]) == Success([1]);
    assert [1] + [2] == [1, 2];
    assert GetParents(rows, [1, 2]) == Success([1, 2]);
    assert GetParents(rows, [2]) == Success([1, 2]);
    assert Names(rows, [1, 2]) == ["Молоко", "Кефир"];
    assert Join(["Кефир"], " / ") == "Кефир";
    assert Join(["Молоко", "Кефир"], " / ") == "Молоко / Кефир";
    var info := CategoryInfo([1, 2], rows);
    assert Entry(rows, 1) == Success(None);
    assert Entry(rows, 2) == Success(Some(Named(2, [1, 2], "Молоко / Кефир")));
    assert FullNames(info, 1) == Success([]);
    FullNamesStep(info, 2);
    assert info.order[1] == 2;
    var x := Named(2, [1, 2], "Молоко / Кефир");
    assert Entry(info.rows, info.order[1]).value == Some(x);
    assert FullNames(info, 1).value + [x] == [x];
    assert FullNames(info, 2) == Success([Named(2, [1, 2], "Молоко / Кефир")]);
  }
}
