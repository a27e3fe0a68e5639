/**
 * The asset routes of src/routes/assets.js: the type an upload is given from
 * its file name, and the listing `GET /`, which clamps the page parameters,
 * keeps the items passing every active filter, sorts them by a whitelisted
 * key in the requested direction and returns one page with its metadata. The
 * items the storage layer returns for the caller are an input.
 */
module Assets {
  import opened JsText
  import opened Sorting
  import Jobs

  /**
   * A stored item as the listing reads it. Every field may be missing;
   * `meta` is the JSON text of the item's `meta` object, if it has one.
   */
  datatype Item = Item(
    sk: Option<string>, entity: Option<string>, id: Option<string>, owner: Option<string>,
    kind: Option<string>, path: Option<string>, meta: Option<string>, createdAt: Option<string>)

  // ---------- the type rule of `POST /` ----------

  /** `s` without the `/` characters at its end. */
  function DropTrailingSlashes(s: string): (r: string)
    ensures |r| <= |s| && r == s[..|r|]
    ensures r == [] || r[|r| - 1] != '/'
    ensures forall i :: |r| <= i < |s| ==> s[i] == '/'
  {
    if |s| > 0 && s[|s| - 1] == '/' then DropTrailingSlashes(s[..|s| - 1]) else s
  }

  /** What follows the last `/`. */
  function LastSegment(s: string): (r: string)
    ensures |r| <= |s| && r == s[|s| - |r|..]
    ensures forall i :: 0 <= i < |r| ==> r[i] != '/'
    ensures |r| == |s| || s[|s| - |r| - 1] == '/'
  {
    if |s| == 0 || s[|s| - 1] == '/' then ""
    else LastSegment(s[..|s| - 1]) + [s[|s| - 1]]
  }

  /** The offset of the last `.` in `s`, if any. */
  function LastDot(s: string): (r: Option<nat>)
    ensures r.Some? ==> r.value < |s| && s[r.value] == '.' && forall i :: r.value < i < |s| ==> s[i] != '.'
    ensures r.None? ==> forall i :: 0 <= i < |s| ==> s[i] != '.'
  {
    if |s| == 0 then None
    else if s[|s| - 1] == '.' then Some(|s| - 1)
    else LastDot(s[..|s| - 1])
  }

  /**
   * `path.extname`: from the last `.` of the last path segment to its end;
   * empty when the segment has no dot, starts with its only dot, or is `..`.
   */
  function ExtName(name: string): (r: string)
    ensures r == [] || (r[0] == '.' && forall k :: 0 < k < |r| ==> r[k] != '.')
  {
    var seg := LastSegment(DropTrailingSlashes(name));
    var dot := LastDot(seg);
    if dot.None? || dot.value == 0 || seg == ".." then ""
    else
      assert forall k :: 0 < k < |seg| - dot.value ==> seg[dot.value..][k] == seg[dot.value + k];
      seg[dot.value..]
  }

  /**
   * The extension is the text from the last dot of the last path segment, when
   * that dot is not the segment's first character and the segment is not `..`.
   * The segment may be preceded by directories and followed by slashes.
   */
  lemma ExtNameOfDotted(dir: string, seg: string, tail: string, p: nat)
    requires dir == [] || dir[|dir| - 1] == '/'
    requires forall i :: 0 <= i < |seg| ==> seg[i] != '/'
    requires forall i :: 0 <= i < |tail| ==> tail[i] == '/'
    requires 0 < p < |seg| && seg[p] == '.' && forall i :: p < i < |seg| ==> seg[i] != '.'
    requires seg != ".."
    ensures ExtName(dir + seg + tail) == seg[p..]
  {
    SegmentOf(dir, seg, tail);
    LastDotAt(seg, p);
    ExtNameAt(dir + seg + tail, seg, p);
  }

  /** A name whose last segment has its last dot past its start, and is not `..`, has the extension from that dot. */
  lemma ExtNameAt(name: string, seg: string, p: nat)
    requires LastSegment(DropTrailingSlashes(name)) == seg
    requires LastDot(seg) == Some(p) && p != 0 && seg != ".."
    ensures ExtName(name) == seg[p..]
  {
  }

  /** A dot with no dot after it is the last dot. */
  lemma LastDotAt(s: string, p: nat)
    requires p < |s| && s[p] == '.' && forall i :: p < i < |s| ==> s[i] != '.'
    ensures LastDot(s) == Some(p)
  {
  }

  /** A last segment with no dot, with only a leading dot, or `..` has no extension. */
  lemma ExtNameUndotted(dir: string, seg: string, tail: string)
    requires dir == [] || dir[|dir| - 1] == '/'
    requires |seg| > 0 && forall i :: 0 <= i < |seg| ==> seg[i] != '/'
    requires (forall i :: 1 <= i < |seg| ==> seg[i] != '.') || seg == ".."
    requires forall i :: 0 <= i < |tail| ==> tail[i] == '/'
    ensures ExtName(dir + seg + tail) == ""
  {
    SegmentOf(dir, seg, tail);
  }

  /** The path `dir + seg + tail` has `seg` as its last segment once the trailing slashes are dropped. */
  lemma SegmentOf(dir: string, seg: string, tail: string)
    requires dir == [] || dir[|dir| - 1] == '/'
    requires |seg| > 0 && forall i :: 0 <= i < |seg| ==> seg[i] != '/'
    requires forall i :: 0 <= i < |tail| ==> tail[i] == '/'
    ensures LastSegment(DropTrailingSlashes(dir + seg + tail)) == seg
  {
    DropSlashesOf(dir + seg, tail);
    LastSegmentOf(dir, seg);
  }

  /** Dropping the trailing slashes of `x + tail` gives `x` back when `x` does not end in `/`. */
  lemma DropSlashesOf(x: string, tail: string)
    requires x == [] || x[|x| - 1] != '/'
    requires forall i :: 0 <= i < |tail| ==> tail[i] == '/'
    ensures DropTrailingSlashes(x + tail) == x
  {
    var s := x + tail;
    var d := DropTrailingSlashes(s);
    assert d == s[..|x|] == x;
  }

  /** The last segment of `dir + seg` is `seg` when `dir` is empty or ends in `/` and `seg` has no `/`. */
  lemma LastSegmentOf(dir: string, seg: string)
    requires dir == [] || dir[|dir| - 1] == '/'
    requires forall i :: 0 <= i < |seg| ==> seg[i] != '/'
    ensures LastSegment(dir + seg) == seg
  {
    var s := dir + seg;
    var l := LastSegment(s);
    assert l == s[|dir|..] == seg;
  }

  /** `ext.toLowerCase().includes(".pdf") ? "pdf" : "image"`. */
  function AssetType(originalName: string): string {
    if Contains(Lower(ExtName(originalName)), ".pdf") then "pdf" else "image"
  }

  /** A file `multer` stored: the client's file name and the temporary path. */
  datatype Upload = Upload(originalName: string, tmpPath: string)

  datatype UploadReply = FileRequired | Uploaded(item: Item)

  /** `{ originalName }` as JSON, without escaping. */
  function MetaText(originalName: string): string {
    "{\"originalName\":\"" + originalName + "\"}"
  }

  /**
   * `POST /`: a request without a file is a 400 `file required`; otherwise
   * the file is kept as `original` plus its extension in the asset's own
   * directory and the stored item records its type. `id`, `sk` and `now`
   * are the uuid, the storage key and the clock reading of the request.
   */
  function UploadAsset(file: Option<Upload>, sub: Option<string>, dataRoot: string, id: string, sk: string, now: string): UploadReply {
    if file.None? then FileRequired
    else
      var name := file.value.originalName;
      var dst := dataRoot + "/assets/" + id + "/original" + ExtName(name);
      Uploaded(Item(Some(sk), Some("asset"), Some(id), Some(Jobs.OwnerOf(sub)), Some(AssetType(name)), Some(dst),
                    Some(MetaText(name)), Some(now)))
  }

  // ---------- query parameters ----------

  /** The query string's parameters, each absent or a single string. */
  datatype Query = Query(
    limit: Option<string>, offset: Option<string>, kind: Option<string>,
    createdAfter: Option<string>, createdBefore: Option<string>, search: Option<string>,
    sort: Option<string>, order: Option<string>)

  const DefaultLimit := 20
  const MaxLimit := 100

  /** `parseInt(v, 10)` of a parameter; an absent one reads as `"undefined"`, which is NaN. */
  function ParamNumber(v: Option<string>): Option<int> {
    if v.None? then None else ParseInt(v.value)
  }

  /** `Math.max(1, Math.min(100, parseInt(q.limit, 10) || 20))`: NaN and 0 fall back to 20. */
  function ClampLimit(v: Option<string>): (r: int)
    ensures 1 <= r <= MaxLimit
  {
    var n := ParamNumber(v);
    var l := if n.None? || n.value == 0 then DefaultLimit else n.value;
    if l > MaxLimit then MaxLimit else if l < 1 then 1 else l
  }

  /** `Math.max(0, parseInt(q.offset, 10) || 0)`. */
  function ClampOffset(v: Option<string>): (r: int)
    ensures r >= 0
  {
    var n := ParamNumber(v);
    if n.None? || n.value < 0 then 0 else n.value
  }

  /** `q.x?.trim() || null`: a parameter that is blank once trimmed is off. */
  function Active(v: Option<string>): (r: Option<string>)
    ensures r.None? <==> v.None? || Trim(v.value) == ""
    ensures r.Some? ==> r.value == Trim(v.value) && r.value != ""
  {
    if v.None? || Trim(v.value) == "" then None else Some(Trim(v.value))
  }

  /** The filters of a query: type (lower-cased), the creation bounds and the search text (lower-cased). */
  datatype Filters = Filters(kind: Option<string>, after: Option<string>, before: Option<string>, search: Option<string>)

  function FiltersOf(q: Query): Filters {
    var k := Active(q.kind);
    var s := Active(q.search);
    Filters(if k.None? then None else Some(Lower(k.value)), Active(q.createdAfter), Active(q.createdBefore),
            if s.None? then None else Some(Lower(s.value)))
  }

  // ---------- the filters ----------

  function OrEmpty(v: Option<string>): string {
    if v.None? then "" else v.value
  }

  /** `String(it.type)`: a missing type is `"undefined"`. */
  function TypeText(it: Item): string {
    if it.kind.None? then "undefined" else it.kind.value
  }

  predicate IsAsset(it: Item) {
    it.entity == Some("asset")
  }

  /** The type filter for the lower-cased type `t`. */
  function OfKind(t: string): Item -> bool {
    (it: Item) => Lower(TypeText(it)) == t
  }

  /** `(it.createdAt || "") >= after`. */
  function CreatedFrom(after: string): Item -> bool {
    (it: Item) => LexLessEq(after, OrEmpty(it.createdAt))
  }

  /** `(it.createdAt || "") <= before`. */
  function CreatedUntil(before: string): Item -> bool {
    (it: Item) => LexLessEq(OrEmpty(it.createdAt), before)
  }

  /** The search for the lower-cased text `s`: in the lower-cased meta JSON or the lower-cased id. */
  function Matches(s: string): Item -> bool {
    (it: Item) => Contains(Lower(OrEmpty(it.meta)), s) || Contains(Lower(OrEmpty(it.id)), s)
  }

  /** One filter stage: `if (v) items = items.filter(p(v))`. */
  function Narrow(items: seq<Item>, v: Option<string>, p: string -> Item -> bool): seq<Item> {
    if v.Some? then Filter(items, p(v.value)) else items
  }

  /** The items that survive the filters, in their original order. */
  function Selected(items: seq<Item>, f: Filters): seq<Item> {
    Narrow(Narrow(Narrow(Narrow(Filter(items, IsAsset), f.kind, OfKind), f.after, CreatedFrom), f.before, CreatedUntil),
           f.search, Matches)
  }

  /** An item passes every active filter. */
  predicate Kept(it: Item, f: Filters) {
    && IsAsset(it)
    && (f.kind.Some? ==> Lower(TypeText(it)) == f.kind.value)
    && (f.after.Some? ==> LexLessEq(f.after.value, OrEmpty(it.createdAt)))
    && (f.before.Some? ==> LexLessEq(OrEmpty(it.createdAt), f.before.value))
    && (f.search.Some? ==> Contains(Lower(OrEmpty(it.meta)), f.search.value) || Contains(Lower(OrEmpty(it.id)), f.search.value))
  }

  // ---------- sorting ----------

  /** The columns `allowedSort` maps to, and the value of a prototype member, which names no column. */
  datatype SortKey = Sk | CreatedAt | Kind | Id | NoKey

  /** The names every plain object inherits from `Object.prototype`. */
  predicate IsPrototypeName(s: string) {
    s in {"constructor", "hasOwnProperty", "isPrototypeOf", "propertyIsEnumerable", "toLocaleString",
          "toString", "valueOf", "__proto__", "__defineGetter__", "__defineSetter__",
          "__lookupGetter__", "__lookupSetter__"}
  }

  /** `allowedSort[req.query.sort] || "createdAt"`. */
  function SortKeyOf(sort: Option<string>): SortKey {
    if sort.None? then CreatedAt
    else if sort.value == "rowid" then Sk
    else if sort.value == "createdAt" then CreatedAt
    else if sort.value == "type" then Kind
    else if sort.value == "id" then Id
    else if IsPrototypeName(sort.value) then NoKey
    else CreatedAt
  }

  /** `(req.query.order || "desc").toLowerCase() === "asc" ? "asc" : "desc"`. */
  function DirectionOf(order: Option<string>): Direction {
    if order.Some? && Lower(order.value) == "asc" then Asc else Desc
  }

  /** `a[sortKey] ?? ""`. */
  function KeyValue(it: Item, key: SortKey): string {
    match key
    case Sk => OrEmpty(it.sk)
    case CreatedAt => OrEmpty(it.createdAt)
    case Kind => OrEmpty(it.kind)
    case Id => OrEmpty(it.id)
    case NoKey => ""
  }

  /** The sort key of a listing. */
  function KeyOf(key: SortKey): Item -> string {
    (it: Item) => KeyValue(it, key)
  }

  // ---------- the page ----------

  /** `items.slice(start, end)` for non-negative bounds. */
  function Slice<T>(xs: seq<T>, start: nat, end: nat): (r: seq<T>)
    ensures var s := if start < |xs| then start else |xs|; var e := if end < |xs| then end else |xs|;
      |r| == (if e <= s then 0 else e - s)
    ensures forall i :: 0 <= i < |r| ==> start + i < |xs| && r[i] == xs[start + i]
  {
    var s := if start < |xs| then start else |xs|;
    var e := if end < |xs| then end else |xs|;
    if e <= s then [] else xs[s..e]
  }

  /** `Math.ceil(total / limit)`. */
  function CeilDiv(total: nat, limit: nat): nat
    requires limit > 0
  {
    (total + limit - 1) / limit
  }

  datatype Page = Page(totalItems: nat, page: int, pageSize: int, totalPages: nat, items: seq<Item>)

  /** The reply for the sorted list: its length, the page number and size, the page count and the slice. */
  function PageOf(sorted: seq<Item>, limit: int, offset: int): Page
    requires limit >= 1 && offset >= 0
  {
    Page(|sorted|, offset / limit + 1, limit, CeilDiv(|sorted|, limit), Slice(sorted, offset, offset + limit))
  }

  /** The caller's assets that pass the filters, in the order of the listing. */
  function Listed(items: seq<Item>, q: Query): seq<Item> {
    SortBy(Selected(items, FiltersOf(q)), KeyOf(SortKeyOf(q.sort)), DirectionOf(q.order))
  }

  /** The listing's reply for the caller's items. */
  function ListPage(items: seq<Item>, q: Query): Page {
    PageOf(Listed(items, q), ClampLimit(q.limit), ClampOffset(q.offset))
  }

  /**
   * `GET /`: `items` is reassigned by each active filter in turn, copied to
   * an array that is sorted in place, and the page is cut from the result.
   */
  method ListAssets(all: seq<Item>, q: Query) returns (p: Page)
    ensures p == ListPage(all, q)
  {
    var limit := ClampLimit(q.limit);
    var offset := ClampOffset(q.offset);
    var f := FiltersOf(q);
    var items := Filter(all, IsAsset);
    if f.kind.Some? {
      items := Filter(items, OfKind(f.kind.value));
    }
    assert items == Narrow(Filter(all, IsAsset), f.kind, OfKind);
    ghost var s2 := items;
    if f.after.Some? {
      items := Filter(items, CreatedFrom(f.after.value));
    }
    assert items == Narrow(s2, f.after, CreatedFrom);
    ghost var s3 := items;
    if f.before.Some? {
      items := Filter(items, CreatedUntil(f.before.value));
    }
    assert items == Narrow(s3, f.before, CreatedUntil);
    ghost var s4 := items;
    if f.search.Some? {
      items := Filter(items, Matches(f.search.value));
    }
    assert items == Narrow(s4, f.search, Matches);
    var a := ToArray(items);
    SortInPlace(a, KeyOf(SortKeyOf(q.sort)), DirectionOf(q.order));
    p := PageOf(a[..], limit, offset);
  }

  // ---------- properties ----------

  /** The type is `pdf` exactly when the lower-cased extension begins with `.pdf`: the last dot is its only dot. */
  lemma PdfByExtension(name: string)
    ensures AssetType(name) == "pdf" <==> StartsWith(Lower(ExtName(name)), ".pdf")
    ensures AssetType(name) == "pdf" || AssetType(name) == "image"
  {
    var e := Lower(ExtName(name));
    ContainsAt(e, ".pdf");
    if Contains(e, ".pdf") {
      var i :| OccursAt(e, ".pdf", i);
      DotFirst(e, i);
      OnlyLeadingDot(name, i);
      assert e[..4] == e[i..i + 4];
    }
    if StartsWith(e, ".pdf") {
      assert OccursAt(e, ".pdf", 0);
    }
  }

  lemma DotFirst(e: string, i: int)
    requires OccursAt(e, ".pdf", i)
    ensures e[i] == '.'
  {
    assert e[i] == e[i..i + 4][0];
  }

  /** The extension holds a dot only at its start, even lower-cased. */
  lemma OnlyLeadingDot(name: string, i: nat)
    requires i < |Lower(ExtName(name))| && Lower(ExtName(name))[i] == '.'
    ensures i == 0
  {
    var e := ExtName(name);
    assert LowerChar(e[i]) == '.';
  }

  /** An upload needs a file; an uploaded item is an asset of one of the two types, kept under its extension. */
  lemma UploadFacts(file: Option<Upload>, sub: Option<string>, dataRoot: string, id: string, sk: string, now: string)
    ensures var r := UploadAsset(file, sub, dataRoot, id, sk, now);
      && (r == FileRequired <==> file.None?)
      && (r.Uploaded? ==>
            && IsAsset(r.item)
            && r.item.kind == Some(AssetType(file.value.originalName))
            && r.item.id == Some(id)
            && r.item.createdAt == Some(now)
            && r.item.path.value[|r.item.path.value| - |ExtName(file.value.originalName)|..] == ExtName(file.value.originalName))
  {
    if file.Some? {
      var e := ExtName(file.value.originalName);
      var dst := dataRoot + "/assets/" + id + "/original" + e;
      assert dst[|dst| - |e|..] == e;
    }
  }

  /** The page size is a number from 1 to 100; 20 when the parameter is missing, not a number, or zero. */
  lemma LimitDefaults(v: Option<string>)
    ensures 1 <= ClampLimit(v) <= MaxLimit
    ensures ParamNumber(v).None? || ParamNumber(v) == Some(0) ==> ClampLimit(v) == DefaultLimit
    ensures ParamNumber(v).Some? && ParamNumber(v).value < 0 ==> ClampLimit(v) == 1
    ensures ParamNumber(v).Some? && ParamNumber(v).value > MaxLimit ==> ClampLimit(v) == MaxLimit
  {
  }

  /** A page size written as a number from 1 to 100 is taken as it is. */
  lemma LimitGiven(n: nat)
    requires 1 <= n <= MaxLimit
    ensures ClampLimit(Some(NatToString(n))) == n
  {
    ParseIntOfNat(n);
  }

  /** The offset is never negative; a missing, non-numeric or negative one is 0, a number otherwise is itself. */
  lemma OffsetDefaults(v: Option<string>, n: nat)
    ensures ClampOffset(v) >= 0
    ensures ParamNumber(v).None? ==> ClampOffset(v) == 0
    ensures ClampOffset(Some(NatToString(n))) == n
  {
    ParseIntOfNat(n);
  }

  /** An item is listed exactly when it passes every active filter. */
  lemma SelectedMembers(items: seq<Item>, f: Filters, it: Item)
    ensures it in Selected(items, f) <==> it in items && Kept(it, f)
  {
    var s1 := Filter(items, IsAsset);
    FilterMembers(items, IsAsset, it);
    var s2 := Narrow(s1, f.kind, OfKind);
    NarrowMembers(s1, f.kind, OfKind, it);
    var s3 := Narrow(s2, f.after, CreatedFrom);
    NarrowMembers(s2, f.after, CreatedFrom, it);
    var s4 := Narrow(s3, f.before, CreatedUntil);
    NarrowMembers(s3, f.before, CreatedUntil, it);
    NarrowMembers(s4, f.search, Matches, it);
  }

  lemma NarrowMembers(items: seq<Item>, v: Option<string>, p: string -> Item -> bool, it: Item)
    ensures it in Narrow(items, v, p) <==> it in items && (v.Some? ==> p(v.value)(it))
  {
    if v.Some? {
      FilterMembers(items, p(v.value), it);
    }
  }

  /** The filters only drop items: what is left is in the original order. */
  lemma SelectedSubsequence(items: seq<Item>, f: Filters)
    ensures Subsequence(Selected(items, f), items)
  {
    var s1 := Filter(items, IsAsset);
    FilterSubsequence(items, IsAsset);
    var s2 := Narrow(s1, f.kind, OfKind);
    NarrowSubsequence(s1, f.kind, OfKind);
    SubsequenceTransitive(s2, s1, items);
    var s3 := Narrow(s2, f.after, CreatedFrom);
    NarrowSubsequence(s2, f.after, CreatedFrom);
    SubsequenceTransitive(s3, s2, items);
    var s4 := Narrow(s3, f.before, CreatedUntil);
    NarrowSubsequence(s3, f.before, CreatedUntil);
    SubsequenceTransitive(s4, s3, items);
    NarrowSubsequence(s4, f.search, Matches);
    SubsequenceTransitive(Selected(items, f), s4, items);
  }

  lemma NarrowSubsequence(items: seq<Item>, v: Option<string>, p: string -> Item -> bool)
    ensures Subsequence(Narrow(items, v, p), items)
  {
    if v.Some? {
      FilterSubsequence(items, p(v.value));
    } else {
      SubsequenceReflexive(items);
    }
  }

  /** The type and search filters ignore ASCII case; blank parameters switch their filter off. */
  lemma FiltersIgnoreCase(q: Query)
    ensures var f := FiltersOf(q);
      && (f.kind.Some? <==> q.kind.Some? && Trim(q.kind.value) != "")
      && (f.kind.Some? ==> f.kind.value == Lower(Trim(q.kind.value)) && Lower(f.kind.value) == f.kind.value)
      && (f.search.Some? <==> q.search.Some? && Trim(q.search.value) != "")
      && (f.search.Some? ==> f.search.value == Lower(Trim(q.search.value)) && Lower(f.search.value) == f.search.value)
      && (f.after.Some? <==> q.createdAfter.Some? && Trim(q.createdAfter.value) != "")
      && (f.after.Some? ==> f.after.value == Trim(q.createdAfter.value))
      && (f.before.Some? <==> q.createdBefore.Some? && Trim(q.createdBefore.value) != "")
      && (f.before.Some? ==> f.before.value == Trim(q.createdBefore.value))
  {
    var f := FiltersOf(q);
    if f.kind.Some? {
      LowerTwice(Trim(q.kind.value));
    }
    if f.search.Some? {
      LowerTwice(Trim(q.search.value));
    }
  }

  lemma LowerTwice(s: string)
    ensures Lower(Lower(s)) == Lower(s)
  {
    assert forall i :: 0 <= i < |s| ==> LowerChar(LowerChar(s[i])) == LowerChar(s[i]);
  }

  /** The whitelist: `rowid`, `createdAt`, `type` and `id` pick their column, anything else sorts by creation time. */
  lemma SortKeyChoice(sort: Option<string>)
    ensures SortKeyOf(sort) == Sk <==> sort == Some("rowid")
    ensures SortKeyOf(sort) == Kind <==> sort == Some("type")
    ensures SortKeyOf(sort) == Id <==> sort == Some("id")
    ensures SortKeyOf(sort) == NoKey <==> sort.Some? && IsPrototypeName(sort.value)
    ensures sort.None? ==> SortKeyOf(sort) == CreatedAt
  {
  }

  /** Only `asc`, in any case, sorts ascending; a missing or empty order is descending. */
  lemma DirectionChoice(order: Option<string>)
    ensures DirectionOf(order) == Asc <==> order.Some? && Lower(order.value) == "asc"
  {
    if order.Some? && Lower(order.value) == "asc" {
      assert |order.value| == 3;
    }
  }

  /** A prototype member as the sort name compares every pair as equal: the order stays as it was. */
  lemma NoKeyKeepsOrder(xs: seq<Item>, dir: Direction)
    ensures SortBy(xs, KeyOf(NoKey), dir) == xs
  {
    SameKeyKeepsOrder(xs, KeyOf(NoKey), dir, "");
  }

  /**
   * The listing: `totalItems` counts every item that passed the filters,
   * before paging; the sorted list holds exactly those items; a page holds
   * from 1 to 100 of them.
   */
  lemma PageFacts(all: seq<Item>, q: Query)
    ensures var p := ListPage(all, q);
      && p.totalItems == |Selected(all, FiltersOf(q))|
      && multiset(Listed(all, q)) == multiset(Selected(all, FiltersOf(q)))
      && 1 <= p.pageSize <= MaxLimit
      && |p.items| <= p.pageSize
  {
    var sel := Selected(all, FiltersOf(q));
    SortPermutes(sel, KeyOf(SortKeyOf(q.sort)), DirectionOf(q.order));
    assert |Listed(all, q)| == |multiset(Listed(all, q))| == |multiset(sel)| == |sel|;
    PageBounds(Listed(all, q), ClampLimit(q.limit), ClampOffset(q.offset));
  }

  /**
   * The page of a sorted list: `items` is the list from `offset` on, at most
   * `pageSize` of them, the page number is `offset / pageSize + 1` and
   * `totalPages` is the least number of pages that hold the whole list.
   */
  lemma PageBounds(sorted: seq<Item>, limit: int, offset: int)
    requires limit >= 1 && offset >= 0
    ensures var p := PageOf(sorted, limit, offset);
      && p.totalItems == |sorted| && p.pageSize == limit
      && |p.items| <= limit
      && (offset < |sorted| ==> p.items == sorted[offset..if offset + limit < |sorted| then offset + limit else |sorted|])
      && (offset >= |sorted| ==> p.items == [])
      && p.page == offset / limit + 1
      && (|sorted| == 0 ==> p.totalPages == 0)
      && (|sorted| > 0 ==> (p.totalPages - 1) * limit < |sorted| <= p.totalPages * limit)
  {
    CeilBounds(|sorted|, limit);
  }

  /** `ceil(t / l)` pages of `l` hold `t` items, one page fewer does not. */
  lemma CeilBounds(t: nat, l: nat)
    requires l > 0
    ensures t == 0 ==> CeilDiv(t, l) == 0
    ensures t > 0 ==> (CeilDiv(t, l) - 1) * l < t <= CeilDiv(t, l) * l
  {
    var c := CeilDiv(t, l);
    assert t + l - 1 == l * c + (t + l - 1) % l;
  }
}
