/** The `compare` block (blocks/compare/compare.js): fields looked up under several
    historical key spellings, two bikes, and one table row per child spec. */
module Compare {
  import opened Outcome

  /** A JavaScript value of the block data. Numbers are modelled as integers. */
  datatype Value =
    | Undefined
    | Null
    | Bool(b: bool)
    | Num(n: int)
    | Str(s: string)
    | Arr(elems: seq<Value>)
    | Obj(fields: map<string, Value>)

  /** The own properties of an object. */
  type Fields = map<string, Value>

  /** A value `getField` accepts: anything but `undefined`, `null` and `''`. */
  predicate Present(v: Value)
  {
    v != Undefined && v != Null && v != Str("")
  }

  /** JavaScript truthiness. */
  predicate Truthy(v: Value)
  {
    match v
    case Undefined => false
    case Null => false
    case Bool(b) => b
    case Num(n) => n != 0
    case Str(s) => s != ""
    case Arr(_) => true
    case Obj(_) => true
  }

  /** `getField(obj, keys, fallback)`: the value of the first key that is an own
      property of `obj` holding a present value, else `fallback`. */
  function GetField(obj: Fields, keys: seq<string>, fallback: Value): (r: Value)
    ensures r == fallback || exists i :: 0 <= i < |keys| && keys[i] in obj && obj[keys[i]] == r && Present(r)
  {
    if keys == [] then fallback
    else if keys[0] in obj && Present(obj[keys[0]]) then obj[keys[0]]
    else
      var r := GetField(obj, keys[1..], fallback);
      assert r != fallback ==> exists i :: 0 <= i < |keys| && keys[i] in obj && obj[keys[i]] == r && Present(r) by {
        if r != fallback {
          var i :| 0 <= i < |keys[1..]| && keys[1..][i] in obj && obj[keys[1..][i]] == r && Present(r);
          assert keys[i + 1] == keys[1..][i];
        }
      }
      r
  }

  /** `keys[k]` qualifies in `obj`. */
  predicate Qualifies(obj: Fields, keys: seq<string>, k: nat)
    requires k < |keys|
  {
    keys[k] in obj && Present(obj[keys[k]])
  }

  /** The first qualifying key wins, however many later keys are also set. */
  lemma {:induction false} GetFieldFirst(obj: Fields, keys: seq<string>, fallback: Value, k: nat)
    requires k < |keys| && Qualifies(obj, keys, k)
    requires forall j :: 0 <= j < k ==> !Qualifies(obj, keys, j)
    ensures GetField(obj, keys, fallback) == obj[keys[k]]
  {
    if k > 0 {
      assert !Qualifies(obj, keys, 0);
      forall j | 0 <= j < k - 1 ensures !Qualifies(obj, keys[1..], j) {
        assert !Qualifies(obj, keys, j + 1);
      }
      GetFieldFirst(obj, keys[1..], fallback, k - 1);
    }
  }

  /** With no qualifying key the fallback is returned. */
  lemma {:induction false} GetFieldFallback(obj: Fields, keys: seq<string>, fallback: Value)
    requires forall j :: 0 <= j < |keys| ==> !Qualifies(obj, keys, j)
    ensures GetField(obj, keys, fallback) == fallback
  {
    if keys != [] {
      assert !Qualifies(obj, keys, 0);
      forall j | 0 <= j < |keys| - 1 ensures !Qualifies(obj, keys[1..], j) {
        assert !Qualifies(obj, keys, j + 1);
      }
      GetFieldFallback(obj, keys[1..], fallback);
    }
  }

  /** Falsy values other than `undefined`, `null` and `''` (such as `0` and `false`)
      are returned, not skipped. */
  lemma GetFieldKeepsZeroAndFalse(obj: Fields, keys: seq<string>, fallback: Value, k: nat)
    requires k < |keys| && keys[k] in obj && (obj[keys[k]] == Num(0) || obj[keys[k]] == Bool(false))
    requires forall j :: 0 <= j < k ==> !Qualifies(obj, keys, j)
    ensures GetField(obj, keys, fallback) == obj[keys[k]]
    ensures !Truthy(GetField(obj, keys, fallback))
  {
    GetFieldFirst(obj, keys, fallback, k);
  }

  const TitleKeys := ["compare-title", "compare_title", "compareTitle"]
  const LeftImageKeys := ["left-bike-image", "left_bike_image", "leftBikeImage"]
  const LeftNameKeys := ["left-bike-name", "left_bike_name", "leftBikeName"]
  const RightImageKeys := ["right-bike-image", "right_bike_image", "rightBikeImage"]
  const RightNameKeys := ["right-bike-name", "right_bike_name", "rightBikeName"]
  const LabelKeys := ["spec-label", "spec_label", "specLabel"]
  const LeftValueKeys := ["left-bike-value", "left_bike_value", "leftBikeValue"]
  const RightValueKeys := ["right-bike-value", "right_bike_value", "rightBikeValue"]

  const DefaultTitle := Str("Compare Bikes")

  /** One bike: the image's `src` and `alt`, and the displayed name. */
  datatype Bike = Bike(src: Value, alt: Value, name: Value)

  /** One table row: the label cell, the left value cell, the right value cell. */
  datatype Row = Row(labelCell: Value, leftCell: Value, rightCell: Value)

  /** The rebuilt block: the title, the left bike, the spec rows and the right bike. */
  datatype View = View(title: Value, left: Bike, rows: seq<Row>, right: Bike)

  /** The `TypeError`s the block can throw while building the rows. */
  datatype Error =
    | ChildrenNotArray          // `data.children` is truthy but has no `forEach`
    | ChildNotObject(index: nat) // a child is `null` or `undefined`, which `hasOwnProperty.call` rejects

  /** The property `data.children`. */
  function ChildrenValue(data: Fields): Value
  {
    if "children" in data then data["children"] else Undefined
  }

  /** `data.children || []` can be iterated. */
  predicate ChildrenIterable(data: Fields)
  {
    !Truthy(ChildrenValue(data)) || ChildrenValue(data).Arr?
  }

  /** The children visited: none when `data.children` is falsy. */
  function Children(data: Fields): (cs: seq<Value>)
    ensures !Truthy(ChildrenValue(data)) ==> cs == []
  {
    var c := ChildrenValue(data);
    if Truthy(c) && c.Arr? then c.elems else []
  }

  /** The own properties `getField` sees on a child: an object's fields, none on
      any other non-null value, and a `TypeError` on `null` and `undefined`. */
  function OwnFields(v: Value): (r: Option<Fields>)
    ensures r.None? <==> v == Undefined || v == Null
  {
    match v
    case Undefined => None
    case Null => None
    case Obj(fields) => Some(fields)
    case _ => Some(map[])
  }

  /** A child spec's row: label, left value, right value, each `''` when no key qualifies. */
  function RowOf(spec: Fields): (row: Row)
  {
    Row(GetField(spec, LabelKeys, Str("")), GetField(spec, LeftValueKeys, Str("")), GetField(spec, RightValueKeys, Str("")))
  }

  /** The title is the first qualifying of `compare-title`, `compare_title`,
      `compareTitle`, in that order, else "Compare Bikes". */
  lemma TitlePrecedence(data: Fields)
    ensures Qualifies(data, TitleKeys, 0) ==> GetField(data, TitleKeys, DefaultTitle) == data["compare-title"]
    ensures !Qualifies(data, TitleKeys, 0) && Qualifies(data, TitleKeys, 1)
      ==> GetField(data, TitleKeys, DefaultTitle) == data["compare_title"]
    ensures !Qualifies(data, TitleKeys, 0) && !Qualifies(data, TitleKeys, 1) && Qualifies(data, TitleKeys, 2)
      ==> GetField(data, TitleKeys, DefaultTitle) == data["compareTitle"]
    ensures !Qualifies(data, TitleKeys, 0) && !Qualifies(data, TitleKeys, 1) && !Qualifies(data, TitleKeys, 2)
      ==> GetField(data, TitleKeys, DefaultTitle) == DefaultTitle
  {
    if Qualifies(data, TitleKeys, 0) {
      GetFieldFirst(data, TitleKeys, DefaultTitle, 0);
    } else if Qualifies(data, TitleKeys, 1) {
      GetFieldFirst(data, TitleKeys, DefaultTitle, 1);
    } else if Qualifies(data, TitleKeys, 2) {
      GetFieldFirst(data, TitleKeys, DefaultTitle, 2);
    } else {
      GetFieldFallback(data, TitleKeys, DefaultTitle);
    }
  }

  /** Visits the children in order and appends one row per child, without filtering;
      a `null` or `undefined` child throws. */
  method BuildRows(children: seq<Value>) returns (r: Result<seq<Row>, Error>)
    ensures r.Ok? <==> forall i :: 0 <= i < |children| ==> OwnFields(children[i]).Some?
    ensures r.Err? ==>
      && r.error.ChildNotObject?
      && r.error.index < |children| && OwnFields(children[r.error.index]).None?
      && forall j :: 0 <= j < r.error.index ==> OwnFields(children[j]).Some?
    ensures r.Ok? ==>
      && |r.value| == |children|
      && forall i :: 0 <= i < |children| ==> r.value[i] == RowOf(OwnFields(children[i]).value)
  {
    var rows: seq<Row> := [];
    for i := 0 to |children|
      invariant |rows| == i
      invariant forall k :: 0 <= k < i ==> OwnFields(children[k]).Some? && rows[k] == RowOf(OwnFields(children[k]).value)
    {
      var spec := OwnFields(children[i]);
      if spec.None? {
        return Err(ChildNotObject(i));
      }
      rows := rows + [RowOf(spec.value)];
    }
    return Ok(rows);
  }

  /** The bike on one side: image source from `imageKeys`; `alt` and displayed name
      both from `nameKeys`. */
  function BikeOf(data: Fields, imageKeys: seq<string>, nameKeys: seq<string>): (b: Bike)
    ensures b.alt == b.name
  {
    var name := GetField(data, nameKeys, Str(""));
    Bike(GetField(data, imageKeys, Str("")), name, name)
  }

  /** Resolves the title and both bikes, then builds the rows from `data.children || []`. */
  method Decorate(data: Fields) returns (r: Result<View, Error>)
    ensures r == Err(ChildrenNotArray) <==> !ChildrenIterable(data)
    ensures r.Ok? <==> ChildrenIterable(data) && forall i :: 0 <= i < |Children(data)| ==> OwnFields(Children(data)[i]).Some?
    ensures r.Err? && r.error.ChildNotObject? ==>
      && r.error.index < |Children(data)| && OwnFields(Children(data)[r.error.index]).None?
      && forall j :: 0 <= j < r.error.index ==> OwnFields(Children(data)[j]).Some?
    ensures r.Ok? ==>
      && r.value.title == GetField(data, TitleKeys, DefaultTitle)
      && r.value.left == BikeOf(data, LeftImageKeys, LeftNameKeys)
      && r.value.right == BikeOf(data, RightImageKeys, RightNameKeys)
      && |r.value.rows| == |Children(data)|
      && forall i :: 0 <= i < |r.value.rows| ==> r.value.rows[i] == RowOf(OwnFields(Children(data)[i]).value)
  {
    var title := GetField(data, TitleKeys, DefaultTitle);
    var left := BikeOf(data, LeftImageKeys, LeftNameKeys);
    var right := BikeOf(data, RightImageKeys, RightNameKeys);
    var children := ChildrenValue(data);
    var specs := if Truthy(children) then children else Arr([]);
    if !specs.Arr? {
      return Err(ChildrenNotArray);
    }
    assert specs.elems == Children(data);
    var rows := BuildRows(specs.elems);
    match rows
    case Err(e) => return Err(e);
    case Ok(rs) => return Ok(View(title, left, rs, right));
  }
}
