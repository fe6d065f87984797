/** The map endpoint (`api/map-data.js`): behind the session cookie, it queries the
    Notion database for geotagged inspection pages, turns each page into a pin, drops
    pins without coordinates and keeps the first (newest) pin per piece of equipment. */
module MapData {
  import opened Wrappers
  import opened Text
  import opened Http

  // ----------------------------------------------------------------------------------
  // The session check

  /** The pair `api/login.js` sets. */
  const AuthPair: string := "equip_map_auth=1"

  /** The pieces of the `Cookie` header between semicolons, each trimmed. */
  function CookieSegments(header: string): (r: seq<string>)
    ensures |r| == |Split(header, ';')|
    ensures forall i :: 0 <= i < |r| ==> r[i] == Trim(Split(header, ';')[i])
  {
    TrimAll(Split(header, ';'))
  }

  /** A request is authorised when some semicolon-separated piece of its `Cookie` header
      (an absent header reads as empty) is, once trimmed, exactly the session pair. */
  predicate Authorised(cookieHeader: Option<string>)
    ensures Authorised(cookieHeader) <==>
      exists i :: 0 <= i < |Split(cookieHeader.GetOr(""), ';')| && Trim(Split(cookieHeader.GetOr(""), ';')[i]) == AuthPair
  {
    SomeSegmentIff(cookieHeader.GetOr(""));
    AuthPair in CookieSegments(cookieHeader.GetOr(""))
  }

  lemma SomeSegmentIff(header: string)
    ensures AuthPair in CookieSegments(header) <==>
      exists i :: 0 <= i < |Split(header, ';')| && Trim(Split(header, ';')[i]) == AuthPair
  {
    var segs := CookieSegments(header);
    if AuthPair in segs {
      var i :| 0 <= i < |segs| && segs[i] == AuthPair;
      assert Trim(Split(header, ';')[i]) == AuthPair;
    }
    if exists i :: 0 <= i < |Split(header, ';')| && Trim(Split(header, ';')[i]) == AuthPair {
      var i :| 0 <= i < |Split(header, ';')| && Trim(Split(header, ';')[i]) == AuthPair;
      assert segs[i] == AuthPair;
    }
  }

  /** A request without a `Cookie` header is not authorised. */
  lemma MissingHeaderDenied()
    ensures !Authorised(None)
  {
    assert Split("", ';') == [""];
    assert Trim("") == "";
    assert CookieSegments("") == [""];
  }

  /** The check is a membership test: the order of the `;`-separated cookies is irrelevant. */
  lemma SegmentOrderIrrelevant(a: string, b: string)
    ensures Authorised(Some(a + ";" + b)) <==> Authorised(Some(b + ";" + a))
  {
    SplitConcat(a, ';', b);
    SplitConcat(b, ';', a);
    TrimAllConcat(Split(a, ';'), Split(b, ';'));
    TrimAllConcat(Split(b, ';'), Split(a, ';'));
  }

  /** Adding a cookie never revokes authorisation, and a cookie that trims to the session
      pair grants it wherever it stands. */
  lemma AppendedCookie(header: string, cookie: string)
    requires ';' !in cookie
    ensures Authorised(Some(header)) ==> Authorised(Some(header + ";" + cookie))
    ensures Trim(cookie) == AuthPair ==> Authorised(Some(header + ";" + cookie))
    ensures Trim(cookie) != AuthPair ==> (Authorised(Some(header + ";" + cookie)) <==> Authorised(Some(header)))
  {
    SplitConcat(header, ';', cookie);
    SplitWithoutSeparator(cookie, ';');
    TrimAllConcat(Split(header, ';'), [cookie]);
  }

  // ----------------------------------------------------------------------------------
  // Notion property values and their readers

  /** One rich-text or title element; only its `plain_text` is read. */
  datatype TextPiece = TextPiece(plainText: string)

  /** A Notion property value. An absent or empty `title`/`rich_text` array is `[]`;
      `select` is the selected option's name, None when `select` is null or absent;
      `number` is Some exactly when the property holds a JSON number. */
  datatype Property = Property(
    title: seq<TextPiece>,
    richText: seq<TextPiece>,
    select: Option<string>,
    number: Option<real>)

  /** The plain text of every piece, concatenated in order with nothing between. */
  function PlainText(pieces: seq<TextPiece>): (r: string)
    ensures pieces == [] ==> r == ""
    ensures |pieces| == 1 ==> r == pieces[0].plainText
    decreases |pieces|
  {
    if pieces == [] then "" else pieces[0].plainText + PlainText(pieces[1..])
  }

  /** The concatenation follows the order of the pieces. */
  lemma {:induction false} PlainTextAppend(a: seq<TextPiece>, b: seq<TextPiece>)
    ensures PlainText(a + b) == PlainText(a) + PlainText(b)
    decreases |a|
  {
    if a == [] {
      assert a + b == b;
    } else {
      assert (a + b)[1..] == a[1..] + b;
      PlainTextAppend(a[1..], b);
      assert PlainText(a + b) == a[0].plainText + PlainText(a[1..] + b);
    }
  }

  /** The text of a property: the title's text when the title has pieces, otherwise the
      rich text's, and "" for a missing property. */
  function GetText(prop: Option<Property>): (r: string)
    ensures prop.None? ==> r == ""
    ensures prop.Some? && |prop.value.title| > 0 ==> r == PlainText(prop.value.title)
    ensures prop.Some? && prop.value.title == [] ==> r == PlainText(prop.value.richText)
  {
    if prop.None? then ""
    else if |prop.value.title| > 0 then PlainText(prop.value.title)
    else if |prop.value.richText| > 0 then PlainText(prop.value.richText)
    else ""
  }

  /** The selected option's name, or "" when the property or its selection is missing. */
  function GetSelect(prop: Option<Property>): (r: string)
    ensures prop.Some? && prop.value.select.Some? ==> r == prop.value.select.value
    ensures prop.None? || prop.value.select.None? ==> r == ""
  {
    if prop.Some? && prop.value.select.Some? then prop.value.select.value else ""
  }

  /** The property's number, or null (None) when it holds none or is missing. */
  function GetNumber(prop: Option<Property>): (r: Option<real>)
    ensures r.Some? <==> prop.Some? && prop.value.number.Some?
    ensures r.Some? ==> r == prop.value.number
  {
    if prop.Some? then prop.value.number else None
  }

  /** A property holding one value reads back as that value: a one-piece title or rich
      text gives its text, a selection gives its name, a number gives itself. A
      many-piece title reads as its pieces' texts in order. */
  lemma ReadBack(text: string, more: seq<TextPiece>, name: string, x: real)
    ensures GetText(Some(Property([TextPiece(text)], [], None, None))) == text
    ensures GetText(Some(Property([], [TextPiece(text)], None, None))) == text
    ensures GetText(Some(Property([TextPiece(text)] + more, [], None, None))) == text + PlainText(more)
    ensures GetSelect(Some(Property([], [], Some(name), None))) == name
    ensures GetNumber(Some(Property([], [], None, Some(x)))) == Some(x)
  {
    PlainTextAppend([TextPiece(text)], more);
  }

  // ----------------------------------------------------------------------------------
  // Pins

  /** One query result: `page.properties` is None when the page carries none. */
  datatype Page = Page(id: string, createdTime: Option<string>, properties: Option<map<string, Property>>)

  datatype Pin = Pin(
    id: string,
    createdTime: Option<string>,
    equipment: string,
    project: string,
    lat: Option<real>,
    lon: Option<real>,
    acc: Option<real>)

  /** The property of that name; a page without properties has none. */
  function Prop(page: Page, name: string): Option<Property> {
    var props := page.properties.GetOr(map[]);
    if name in props then Some(props[name]) else None
  }

  /** The pin made from one page. The equipment name is the select option's name, or
      the property's text when that name is empty; an empty creation time reads as
      null; the project is the select option's name; the coordinates and accuracy are
      the numbers the page holds. */
  function ExtractPin(page: Page): (p: Pin)
    ensures p.id == page.id
    ensures p.createdTime == if page.createdTime == Some("") then None else page.createdTime
    ensures p.equipment == if GetSelect(Prop(page, "Equipment")) != "" then GetSelect(Prop(page, "Equipment"))
                           else GetText(Prop(page, "Equipment"))
    ensures p.project == GetSelect(Prop(page, "Project"))
    ensures p.lat == GetNumber(Prop(page, "GPS Lat"))
    ensures p.lon == GetNumber(Prop(page, "GPS Lon"))
    ensures p.acc == GetNumber(Prop(page, "GPS Accuracy (m)"))
  {
    var select := GetSelect(Prop(page, "Equipment"));
    Pin(
      page.id,
      if page.createdTime == Some("") then None else page.createdTime,
      if select != "" then select else GetText(Prop(page, "Equipment")),
      GetSelect(Prop(page, "Project")),
      GetNumber(Prop(page, "GPS Lat")),
      GetNumber(Prop(page, "GPS Lon")),
      GetNumber(Prop(page, "GPS Accuracy (m)")))
  }

  /** A pin can be placed on the map: it has both a latitude and a longitude. */
  predicate Located(p: Pin) {
    p.lat.Some? && p.lon.Some?
  }

  /** A page holds a number in the named property: what Notion's `is_not_empty` filter
      asks for. */
  predicate HasNumber(page: Page, name: string) {
    Prop(page, name).Some? && Prop(page, name).value.number.Some?
  }

  /** A pin is located exactly when its page passes the server-side filter. */
  lemma LocatedIffFiltered(page: Page)
    ensures Located(ExtractPin(page)) <==> HasNumber(page, "GPS Lat") && HasNumber(page, "GPS Lon")
  {
  }

  /** The items that pass `keep`, in their original order. */
  function Filter<T>(xs: seq<T>, keep: T -> bool): (r: seq<T>)
    ensures |r| <= |xs|
    ensures forall k :: 0 <= k < |r| ==> keep(r[k])
    ensures forall x :: x in xs && keep(x) ==> x in r
    ensures forall x :: x in r ==> x in xs
    decreases |xs|
  {
    if xs == [] then []
    else
      assert forall x :: x in xs[1..] ==> x in xs;
      assert forall x :: x in xs ==> x == xs[0] || x in xs[1..];
      if keep(xs[0]) then [xs[0]] + Filter(xs[1..], keep) else Filter(xs[1..], keep)
  }

  /** `pos` lists, in increasing order, positions of `xs` holding the items of `ys`:
      all positions at or after `from` whose item passes `keep`. */
  ghost predicate PositionsOf<T>(xs: seq<T>, keep: T -> bool, from: nat, ys: seq<T>, pos: seq<nat>) {
    && |pos| == |ys|
    && (forall k :: 0 <= k < |pos| ==> from <= pos[k] < |xs| && ys[k] == xs[pos[k]])
    && (forall k, l :: 0 <= k < l < |pos| ==> pos[k] < pos[l])
    && (forall i :: from <= i < |xs| && keep(xs[i]) ==> i in pos)
  }

  /** Filtering keeps order: the kept items sit at strictly increasing positions of the
      input, and every input position whose item passes is among them. */
  lemma {:induction false} FilterPositions<T>(xs: seq<T>, keep: T -> bool) returns (pos: seq<nat>)
    ensures |pos| == |Filter(xs, keep)|
    ensures forall k :: 0 <= k < |pos| ==> pos[k] < |xs| && Filter(xs, keep)[k] == xs[pos[k]]
    ensures forall k, l :: 0 <= k < l < |pos| ==> pos[k] < pos[l]
    ensures forall i :: 0 <= i < |xs| && keep(xs[i]) ==> i in pos
    decreases |xs|
  {
    if xs == [] {
      pos := [];
    } else {
      var tail := FilterPositions(xs[1..], keep);
      assert PositionsOf(xs[1..], keep, 0, Filter(xs[1..], keep), tail);
      var shifted := ShiftPositions(xs, keep, Filter(xs[1..], keep), tail);
      if keep(xs[0]) {
        assert Filter(xs, keep) == [xs[0]] + Filter(xs[1..], keep);
        pos := PrependPosition(xs, keep, Filter(xs[1..], keep), shifted);
      } else {
        assert Filter(xs, keep) == Filter(xs[1..], keep);
        pos := shifted;
      }
      assert PositionsOf(xs, keep, 0, Filter(xs, keep), pos);
    }
  }

  /** Positions in `xs[1..]` read as positions in `xs`. */
  lemma ShiftPositions<T>(xs: seq<T>, keep: T -> bool, ys: seq<T>, tail: seq<nat>) returns (shifted: seq<nat>)
    requires |xs| > 0
    requires PositionsOf(xs[1..], keep, 0, ys, tail)
    ensures PositionsOf(xs, keep, 1, ys, shifted)
  {
    shifted := seq(|tail|, k requires 0 <= k < |tail| => tail[k] + 1);
    forall k | 0 <= k < |shifted|
      ensures 1 <= shifted[k] < |xs| && ys[k] == xs[shifted[k]]
    {
      assert xs[shifted[k]] == xs[1..][tail[k]];
    }
    forall i | 1 <= i < |xs| && keep(xs[i])
      ensures i in shifted
    {
      assert xs[i] == xs[1..][i - 1];
      var k :| 0 <= k < |tail| && tail[k] == i - 1;
      assert shifted[k] == i;
    }
  }

  /** A passing first item goes in front of the positions of the rest. */
  lemma PrependPosition<T>(xs: seq<T>, keep: T -> bool, ys: seq<T>, shifted: seq<nat>) returns (pos: seq<nat>)
    requires |xs| > 0 && keep(xs[0])
    requires PositionsOf(xs, keep, 1, ys, shifted)
    ensures PositionsOf(xs, keep, 0, [xs[0]] + ys, pos)
  {
    pos := [0] + shifted;
    forall k | 0 <= k < |pos|
      ensures pos[k] < |xs| && ([xs[0]] + ys)[k] == xs[pos[k]]
    {
      if k > 0 {
        assert pos[k] == shifted[k - 1] && ([xs[0]] + ys)[k] == ys[k - 1];
      }
    }
    forall i | 0 <= i < |xs| && keep(xs[i])
      ensures i in pos
    {
      if i > 0 {
        assert i in shifted;
      }
    }
  }

  /** When every item passes, filtering changes nothing. */
  lemma {:induction false} FilterKeepsAll<T>(xs: seq<T>, keep: T -> bool)
    requires forall i :: 0 <= i < |xs| ==> keep(xs[i])
    ensures Filter(xs, keep) == xs
    decreases |xs|
  {
    if xs != [] {
      FilterKeepsAll(xs[1..], keep);
      assert xs == [xs[0]] + xs[1..];
    }
  }

  /** The pins made from each page, one per page, in page order. */
  function Extracted(pages: seq<Page>): (r: seq<Pin>)
    ensures |r| == |pages|
    ensures forall i :: 0 <= i < |pages| ==> r[i] == ExtractPin(pages[i])
  {
    seq(|pages|, i requires 0 <= i < |pages| => ExtractPin(pages[i]))
  }

  /** The query results turned into pins, keeping those with both coordinates. */
  function LocatedPins(pages: seq<Page>): (r: seq<Pin>)
    ensures |r| <= |pages|
    ensures forall i :: 0 <= i < |r| ==> Located(r[i])
    ensures forall i :: 0 <= i < |pages| && Located(ExtractPin(pages[i])) ==> ExtractPin(pages[i]) in r
    ensures forall i :: 0 <= i < |r| ==> exists j :: 0 <= j < |pages| && r[i] == ExtractPin(pages[j])
  {
    var pins := Extracted(pages);
    var r := Filter(pins, Located);
    assert forall i :: 0 <= i < |pages| ==> pins[i] in pins;
    assert forall i :: 0 <= i < |r| ==> r[i] in pins;
    r
  }

  /** When every page passed Notion's own filter, the defensive filter drops nothing. */
  lemma FilterKeepsFilteredResults(pages: seq<Page>)
    requires forall i :: 0 <= i < |pages| ==> HasNumber(pages[i], "GPS Lat") && HasNumber(pages[i], "GPS Lon")
    ensures LocatedPins(pages) == Extracted(pages)
  {
    var pins := Extracted(pages);
    forall i | 0 <= i < |pins| ensures Located(pins[i]) {
      LocatedIffFiltered(pages[i]);
    }
    FilterKeepsAll(pins, Located);
  }

  /** Filtering keeps a newest-first order newest first. */
  lemma LocatedPinsKeepOrder(pages: seq<Page>)
    requires NewestFirst(Extracted(pages))
    ensures NewestFirst(LocatedPins(pages))
  {
    var pins := LocatedPins(pages);
    var pos := FilterPositions(Extracted(pages), Located);
    forall k, l | 0 <= k < l < |pins|
      ensures !Newer(pins[l], pins[k])
    {
      assert pins[k] == Extracted(pages)[pos[k]] && pins[l] == Extracted(pages)[pos[l]];
    }
  }

  // ----------------------------------------------------------------------------------
  // Latest pin per piece of equipment

  /** The grouping key: the equipment name with surrounding whitespace dropped, with
      "Unknown" standing in for a missing name. */
  function Key(p: Pin): (k: string)
    ensures p.equipment == "" ==> k == "Unknown"
    ensures p.equipment != "" ==> k == Trim(p.equipment)
    ensures Trimmed(k)
  {
    UnknownIsTrimmed();
    Trim(if p.equipment == "" then "Unknown" else p.equipment)
  }

  lemma UnknownIsTrimmed()
    ensures Trim("Unknown") == "Unknown"
  {
    TrimOf([], "Unknown", []);
    assert [] + "Unknown" + [] == "Unknown";
  }

  /** An empty equipment name is keyed "Unknown", but a whitespace-only one trims to "",
      a different key. */
  lemma KeysOfBlankEquipment(p: Pin, q: Pin)
    requires p.equipment == ""
    requires q.equipment != "" && AllSpace(q.equipment)
    ensures Key(p) == "Unknown" && Key(q) == "" && Key(p) != Key(q)
  {
    TrimOf([], "Unknown", []);
    assert [] + "Unknown" + [] == "Unknown";
    TrimOf(q.equipment, [], []);
    assert q.equipment + [] + [] == q.equipment;
  }

  /** No item before `items[i]` has its key. */
  predicate FirstOfKey<T>(items: seq<T>, key: T -> string, i: nat)
    requires i < |items|
  {
    forall j :: 0 <= j < i ==> key(items[j]) != key(items[i])
  }

  /** The positions among the first `n` items that are the first with their key, ascending. */
  function FirstPositions<T>(items: seq<T>, key: T -> string, n: nat): (r: seq<nat>)
    requires n <= |items|
    ensures forall k :: 0 <= k < |r| ==> r[k] < n
    ensures forall k :: 0 <= k < |r| ==> FirstOfKey(items, key, r[k])
    ensures forall k, l :: 0 <= k < l < |r| ==> r[k] < r[l]
    ensures forall i :: 0 <= i < n && FirstOfKey(items, key, i) ==> i in r
  {
    if n == 0 then []
    else
      var r := FirstPositions(items, key, n - 1);
      if FirstOfKey(items, key, n - 1) then r + [n - 1] else r
  }

  /** The reference result of the reduction: the items that are first with their key,
      in input order. */
  function FirstPerKey<T>(items: seq<T>, key: T -> string): (r: seq<T>)
    ensures |r| == |FirstPositions(items, key, |items|)|
    ensures forall k :: 0 <= k < |r| ==> r[k] == items[FirstPositions(items, key, |items|)[k]]
  {
    var idx := FirstPositions(items, key, |items|);
    seq(|idx|, k requires 0 <= k < |idx| => items[idx[k]])
  }

  /** The Map and its insertion order after the first `i` items, given the positions
      `pos` it was filled from: under each key in `order` it holds the item at the
      matching position, and its keys are exactly the keys seen so far. */
  ghost predicate Tracks<T>(items: seq<T>, key: T -> string, i: nat, pos: seq<nat>, latest: map<string, T>, order: seq<string>)
    requires i <= |items|
  {
    && |order| == |pos|
    && (forall k :: 0 <= k < |pos| ==>
          pos[k] < |items| && order[k] == key(items[pos[k]]) && order[k] in latest && latest[order[k]] == items[pos[k]])
    && (forall j :: 0 <= j < i ==> key(items[j]) in latest)
    && (forall s :: s in latest ==> exists j :: 0 <= j < i && key(items[j]) == s)
  }

  /** The loop invariant: the Map was filled from the first position of each key. */
  ghost predicate Scanned<T>(items: seq<T>, key: T -> string, i: nat, latest: map<string, T>, order: seq<string>)
    requires i <= |items|
  {
    Tracks(items, key, i, FirstPositions(items, key, i), latest, order)
  }

  /** One step of the loop keeps `Scanned`: a new key is inserted and appended, a known
      key leaves the Map alone. */
  lemma ScanStep<T>(items: seq<T>, key: T -> string, i: nat, latest: map<string, T>, order: seq<string>)
    requires i < |items|
    requires Scanned(items, key, i, latest, order)
    ensures key(items[i]) !in latest ==>
      Scanned(items, key, i + 1, latest[key(items[i]) := items[i]], order + [key(items[i])])
    ensures key(items[i]) in latest ==> Scanned(items, key, i + 1, latest, order)
  {
    var pos := FirstPositions(items, key, i);
    if key(items[i]) !in latest {
      assert FirstOfKey(items, key, i);
      assert FirstPositions(items, key, i + 1) == pos + [i];
      TracksInsert(items, key, i, pos, latest, order);
    } else {
      var j :| 0 <= j < i && key(items[j]) == key(items[i]);
      assert !FirstOfKey(items, key, i);
      assert FirstPositions(items, key, i + 1) == pos;
      TracksSkip(items, key, i, pos, latest, order);
    }
  }

  lemma TracksInsert<T>(items: seq<T>, key: T -> string, i: nat, pos: seq<nat>, latest: map<string, T>, order: seq<string>)
    requires i < |items|
    requires Tracks(items, key, i, pos, latest, order)
    requires key(items[i]) !in latest
    ensures Tracks(items, key, i + 1, pos + [i], latest[key(items[i]) := items[i]], order + [key(items[i])])
  {
    var s := key(items[i]);
    var pos', latest', order' := pos + [i], latest[s := items[i]], order + [s];
    forall k | 0 <= k < |pos'|
      ensures pos'[k] < |items| && order'[k] == key(items[pos'[k]])
      ensures order'[k] in latest' && latest'[order'[k]] == items[pos'[k]]
    {
      if k < |pos| {
        assert order'[k] == order[k] && pos'[k] == pos[k];
      }
    }
    forall t | t in latest'
      ensures exists j :: 0 <= j < i + 1 && key(items[j]) == t
    {
      if t == s {
        assert key(items[i]) == t;
      } else {
        assert t in latest;
      }
    }
  }

  lemma TracksSkip<T>(items: seq<T>, key: T -> string, i: nat, pos: seq<nat>, latest: map<string, T>, order: seq<string>)
    requires i < |items|
    requires Tracks(items, key, i, pos, latest, order)
    requires key(items[i]) in latest
    ensures Tracks(items, key, i + 1, pos, latest, order)
  {
  }

  /** The loop of `map-data.js`, for any key function: a JavaScript `Map` from key to
      item, filled in one pass and inserting a key only when `has` says it is new; its
      values, in insertion order, are the result. `order` holds the Map's keys in
      insertion order. */
  method KeepFirstPerKey<T>(items: seq<T>, key: T -> string) returns (kept: seq<T>)
    ensures kept == FirstPerKey(items, key)
  {
    var latest: map<string, T> := map[];
    var order: seq<string> := [];
    for i := 0 to |items|
      invariant Scanned(items, key, i, latest, order)
    {
      var s := key(items[i]);
      ScanStep(items, key, i, latest, order);
      if s !in latest {
        latest := latest[s := items[i]];
        order := order + [s];
      }
    }
    kept := seq(|order|, k requires 0 <= k < |order| && order[k] in latest => latest[order[k]]);
  }

  /** `latestByEquip` over the located pins: the first pin per equipment key. */
  method LatestPerEquipment(pins: seq<Pin>) returns (kept: seq<Pin>)
    ensures kept == FirstPerKey(pins, Key)
  {
    kept := KeepFirstPerKey(pins, Key);
  }

  /** No two kept items share a key. */
  lemma KeptKeysDistinct<T>(items: seq<T>, key: T -> string)
    ensures forall k, l :: 0 <= k < l < |FirstPerKey(items, key)| ==>
      key(FirstPerKey(items, key)[k]) != key(FirstPerKey(items, key)[l])
  {
    var idx := FirstPositions(items, key, |items|);
    forall k, l | 0 <= k < l < |idx| ensures key(items[idx[k]]) != key(items[idx[l]]) {
      assert idx[k] < idx[l];
      assert FirstOfKey(items, key, idx[l]);
    }
  }

  /** The kept items stand at strictly increasing positions of the input (an
      order-preserving subsequence), and each is the first item there with its key. */
  lemma KeptPositions<T>(items: seq<T>, key: T -> string) returns (pos: seq<nat>)
    ensures |pos| == |FirstPerKey(items, key)|
    ensures forall k :: 0 <= k < |pos| ==> pos[k] < |items| && FirstPerKey(items, key)[k] == items[pos[k]]
    ensures forall k :: 0 <= k < |pos| ==> FirstOfKey(items, key, pos[k])
    ensures forall k, l :: 0 <= k < l < |pos| ==> pos[k] < pos[l]
  {
    pos := FirstPositions(items, key, |items|);
  }

  /** Every key that occurs in the input is the key of some kept item. */
  lemma EveryKeyCovered<T>(items: seq<T>, key: T -> string)
    ensures forall i :: 0 <= i < |items| ==>
      exists k :: 0 <= k < |FirstPerKey(items, key)| && key(FirstPerKey(items, key)[k]) == key(items[i])
  {
    var idx := FirstPositions(items, key, |items|);
    var kept := FirstPerKey(items, key);
    forall i | 0 <= i < |items|
      ensures exists k :: 0 <= k < |kept| && key(kept[k]) == key(items[i])
    {
      var f := FirstWithKeyAtOrBefore(items, key, i);
      assert f in idx;
      var k :| 0 <= k < |idx| && idx[k] == f;
      assert key(kept[k]) == key(items[i]);
    }
  }

  lemma {:induction false} FirstWithKeyAtOrBefore<T>(items: seq<T>, key: T -> string, i: nat) returns (f: nat)
    requires i < |items|
    ensures f <= i && key(items[f]) == key(items[i]) && FirstOfKey(items, key, f)
    decreases i
  {
    if FirstOfKey(items, key, i) {
      f := i;
    } else {
      var j :| 0 <= j < i && key(items[j]) == key(items[i]);
      f := FirstWithKeyAtOrBefore(items, key, j);
    }
  }

  /** `a` was created after `b`. Notion's `created_time` values share one
      ISO 8601 format, so their string order is their time order. */
  predicate Newer(a: Pin, b: Pin) {
    a.createdTime.Some? && b.createdTime.Some? && StringLess(b.createdTime.value, a.createdTime.value)
  }

  /** Strict lexicographic order on strings. */
  predicate StringLess(a: string, b: string)
    decreases |a|
  {
    if a == [] then b != []
    else if b == [] then false
    else if a[0] != b[0] then a[0] < b[0]
    else StringLess(a[1..], b[1..])
  }

  lemma {:induction false} StringLessIrreflexive(a: string)
    ensures !StringLess(a, a)
    decreases |a|
  {
    if a != [] {
      StringLessIrreflexive(a[1..]);
    }
  }

  /** Notion's order: no pin is newer than a pin before it. */
  predicate NewestFirst(pins: seq<Pin>) {
    forall i, j :: 0 <= i < j < |pins| ==> !Newer(pins[j], pins[i])
  }

  /** For a newest-first input, no pin of the input is newer than the kept pin with
      its key: each kept pin is the most recent one for its equipment. */
  lemma KeptAreNewest(pins: seq<Pin>, key: Pin -> string)
    requires NewestFirst(pins)
    ensures forall k, j :: 0 <= k < |FirstPerKey(pins, key)| && 0 <= j < |pins| && key(pins[j]) == key(FirstPerKey(pins, key)[k]) ==>
      !Newer(pins[j], FirstPerKey(pins, key)[k])
  {
    var idx := FirstPositions(pins, key, |pins|);
    forall k, j | 0 <= k < |idx| && 0 <= j < |pins| && key(pins[j]) == key(pins[idx[k]])
      ensures !Newer(pins[j], pins[idx[k]])
    {
      assert FirstOfKey(pins, key, idx[k]);
      if j == idx[k] {
        if pins[j].createdTime.Some? { StringLessIrreflexive(pins[j].createdTime.value); }
      }
    }
  }

  /** The reduction only drops pins, so every pin it keeps from located pins is located. */
  lemma KeptLocated(pins: seq<Pin>)
    requires forall i :: 0 <= i < |pins| ==> Located(pins[i])
    ensures forall k :: 0 <= k < |FirstPerKey(pins, Key)| ==> Located(FirstPerKey(pins, Key)[k])
  {
    var pos := KeptPositions(pins, Key);
  }

  /** When Notion returns the pages newest first, each reported pin is the newest
      located pin with its equipment key. */
  lemma ReportedPinsNewest(pages: seq<Page>)
    requires NewestFirst(Extracted(pages))
    ensures forall k, j ::
      (0 <= k < |FirstPerKey(LocatedPins(pages), Key)| && 0 <= j < |pages| &&
       Located(ExtractPin(pages[j])) && Key(ExtractPin(pages[j])) == Key(FirstPerKey(LocatedPins(pages), Key)[k])) ==>
      !Newer(ExtractPin(pages[j]), FirstPerKey(LocatedPins(pages), Key)[k])
  {
    var located := LocatedPins(pages);
    var kept := FirstPerKey(located, Key);
    LocatedPinsKeepOrder(pages);
    KeptAreNewest(located, Key);
    forall k, j | 0 <= k < |kept| && 0 <= j < |pages| && Located(ExtractPin(pages[j])) && Key(ExtractPin(pages[j])) == Key(kept[k])
      ensures !Newer(ExtractPin(pages[j]), kept[k])
    {
      var m :| 0 <= m < |located| && located[m] == ExtractPin(pages[j]);
    }
  }

  // ----------------------------------------------------------------------------------
  // The handler

  /** The Notion database query: at most `pageSize` pages having both a `GPS Lat` and
      a `GPS Lon` number, sorted by `Created time`, newest first. */
  datatype Query = Query(token: string, databaseId: string, pageSize: nat)

  /** The success body: the number of pins and the pins themselves. */
  datatype PinReport = PinReport(count: int, pins: seq<Pin>)

  /** What the handler decides before any upstream call: answer at once, or query Notion. */
  datatype Gate = Reply(response: Response<PinReport>) | Ask(query: Query)

  /** The checks ahead of the query: method, then session cookie, then configuration. */
  function Admit(verb: string, cookieHeader: Option<string>, token: Option<string>, databaseId: Option<string>): (g: Gate)
    ensures verb != "GET" ==> g == Reply(Fail(405, "Method not allowed"))
    ensures verb == "GET" && !Authorised(cookieHeader) ==> g == Reply(Fail(401, "Unauthorized"))
    ensures verb == "GET" && Authorised(cookieHeader) && !(Configured(token) && Configured(databaseId)) ==>
      g == Reply(Fail(500, "Missing NOTION_TOKEN or NOTION_DATABASE_ID"))
    ensures g.Ask? <==> verb == "GET" && Authorised(cookieHeader) && Configured(token) && Configured(databaseId)
    ensures g.Ask? ==> g.query == Query(token.value, databaseId.value, 100)
    ensures g.Reply? ==> g.response.status in {401, 405, 500}
  {
    if verb != "GET" then Reply(Fail(405, "Method not allowed"))
    else if !Authorised(cookieHeader) then Reply(Fail(401, "Unauthorized"))
    else if !Configured(token) || !Configured(databaseId) then
      Reply(Fail(500, "Missing NOTION_TOKEN or NOTION_DATABASE_ID"))
    else Ask(Query(token.value, databaseId.value, 100))
  }

  /** The handler. `notion` answers the query with `data.results` (None when the field
      is missing) or with the non-2xx status and body. */
  method Handle(verb: string, cookieHeader: Option<string>, token: Option<string>, databaseId: Option<string>,
                notion: Query -> UpstreamReply<Option<seq<Page>>>)
    returns (r: Response<PinReport>)
    ensures var gate := Admit(verb, cookieHeader, token, databaseId);
      gate.Reply? ==> r == gate.response
    ensures var gate := Admit(verb, cookieHeader, token, databaseId);
      gate.Ask? && notion(gate.query).Rejected? ==>
        r == Response(notion(gate.query).status, None, UpstreamFailure(notion(gate.query).payload))
    ensures var gate := Admit(verb, cookieHeader, token, databaseId);
      gate.Ask? && notion(gate.query).Delivered? ==>
        var pins := FirstPerKey(LocatedPins(notion(gate.query).value.GetOr([])), Key);
        r == Response(200, None, Success(PinReport(|pins|, pins)))
    ensures r.body.Success? ==> r.body.value.count == |r.body.value.pins|
    ensures r.body.Success? ==> forall k :: 0 <= k < |r.body.value.pins| ==> Located(r.body.value.pins[k])
    ensures var gate := Admit(verb, cookieHeader, token, databaseId);
      gate.Ask? && notion(gate.query).Delivered? && NewestFirst(Extracted(notion(gate.query).value.GetOr([]))) ==>
        var pages := notion(gate.query).value.GetOr([]);
        forall k, j ::
          (0 <= k < |r.body.value.pins| && 0 <= j < |pages| &&
           Located(ExtractPin(pages[j])) && Key(ExtractPin(pages[j])) == Key(r.body.value.pins[k])) ==>
          !Newer(ExtractPin(pages[j]), r.body.value.pins[k])
  {
    var gate := Admit(verb, cookieHeader, token, databaseId);
    if gate.Reply? {
      return gate.response;
    }
    match notion(gate.query)
    case Rejected(status, payload) =>
      r := Response(status, None, UpstreamFailure(payload));
    case Delivered(results) =>
      var located := LocatedPins(results.GetOr([]));
      var pins := LatestPerEquipment(located);
      KeptLocated(located);
      if NewestFirst(Extracted(results.GetOr([]))) {
        ReportedPinsNewest(results.GetOr([]));
      }
      r := Response(200, None, Success(PinReport(|pins|, pins)));
  }
}
