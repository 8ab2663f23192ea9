/** Object and global filters: the predicates that decide whether a handler
    applies. The screen reader's object is reduced to the properties the
    filters and handlers probe; a property read through `hasattr` is a
    `Prop`, which is absent, raises when read, or has a value. The `plugin`
    argument of `matches` is not read by any filter and is left out. */
module Filters {
  import opened Wrappers

  /** Accessibility roles; `NoRole` is Python's `None`. */
  datatype Role = NoRole | Graphic | ImageMap | Image | OtherRole(code: int)

  datatype Prop<+T> = Absent | Raises | Present(value: T)

  /** What an IAccessible2 attribute property can hold. */
  datatype AttrValue =
    | NoneValue
    | DictValue(entries: map<string, string>)
    | StrValue(text: string)
    | OtherValue

  /** A bounding box as `(left, top, width, height)`, with the `right` and
      `bottom` properties of the screen reader's rectangles. */
  datatype Location = Location(left: int, top: int, width: int, height: int) {
    function Right(): int { left + width }
    function Bottom(): int { top + height }
  }

  /** The screen reader's object. `element` identifies the accessible
      element it wraps: two objects compare equal (`==`, `!=`) exactly when
      they wrap the same element, whatever their other attributes read at
      the moment. `iaccessibleAttributes` is
      `obj.IAccessibleObject.attributes`, absent when either attribute is.
      `location` is `None` when the attribute is missing or falsy. */
  datatype UIObject = UIObject(
    element: nat,
    name: string,
    role: Prop<Role>,
    ia2Attributes: Prop<AttrValue>,
    iaccessibleAttributes: Prop<AttrValue>,
    location: Option<Location>)

  /** The screen reader's object equality: the same underlying element. */
  predicate SameElement(a: UIObject, b: UIObject) {
    a.element == b.element
  }

  /** Python truthiness of an attribute value. */
  predicate Truthy(v: AttrValue) {
    match v
    case NoneValue => false
    case DictValue(m) => |m| > 0
    case StrValue(s) => |s| > 0
    case OtherValue => true
  }

  /** Python's `sub in s` on strings. */
  predicate Contains(s: string, sub: string)
    decreases |s|
  {
    (|sub| <= |s| && s[..|sub|] == sub) || (0 < |s| && Contains(s[1..], sub))
  }

  /** A dict whose `tag` is `video`, or a string containing `tag:video`. */
  predicate VideoTagged(v: AttrValue) {
    match v
    case DictValue(m) => "tag" in m && m["tag"] == "video"
    case StrValue(s) => Contains(s, "tag:video")
    case _ => false
  }

  /** The attribute source the graphic filter reads: `IA2Attributes` when
      the object has it, else `IAccessibleObject.attributes`. */
  function AttributesOf(o: UIObject): (p: Prop<AttrValue>)
    ensures !o.ia2Attributes.Absent? ==> p == o.ia2Attributes
    ensures o.ia2Attributes.Absent? ==> p == o.iaccessibleAttributes
  {
    if !o.ia2Attributes.Absent? then o.ia2Attributes else o.iaccessibleAttributes
  }

  predicate IsImageRole(r: Role) {
    r == Graphic || r == ImageMap
  }

  /** `GraphicFilter.matches`. A raising property read lands in the
      `except` branch and gives false. */
  predicate GraphicMatches(obj: Option<UIObject>)
    ensures obj.None? ==> !GraphicMatches(obj)
    ensures obj.Some? && !obj.value.role.Present? ==> !GraphicMatches(obj)
    ensures obj.Some? && obj.value.role == Present(NoRole) ==> !GraphicMatches(obj)
    ensures obj.Some? && obj.value.role.Present? && IsImageRole(obj.value.role.value) ==> GraphicMatches(obj)
    ensures obj.Some? && obj.value.role.Present? && obj.value.role.value != NoRole
              && !IsImageRole(obj.value.role.value)
            ==> (GraphicMatches(obj) <==>
                   AttributesOf(obj.value).Present? && VideoTagged(AttributesOf(obj.value).value))
  {
    match obj
    case None => false
    case Some(o) =>
      match o.role
      case Absent => false
      case Raises => false
      case Present(r) =>
        if r == NoRole then false
        else if IsImageRole(r) then true
        else
          match AttributesOf(o)
          case Absent => false
          case Raises => false
          case Present(v) => Truthy(v) && VideoTagged(v)
  }

  /** `ObjectFilter` (matches everything), `ComboObjectFilter` and
      `GraphicFilter`. */
  datatype ObjectFilter =
    | MatchAllObjects
    | ComboObjects(includes: seq<ObjectFilter>, excludes: seq<ObjectFilter>)
    | GraphicObjects

  predicate Matches(f: ObjectFilter, obj: Option<UIObject>)
    decreases f
  {
    match f
    case MatchAllObjects => true
    case ComboObjects(includes, excludes) => AllMatch(includes, obj) && !AnyMatches(excludes, obj)
    case GraphicObjects => GraphicMatches(obj)
  }

  predicate AllMatch(fs: seq<ObjectFilter>, obj: Option<UIObject>)
    decreases fs
  {
    |fs| == 0 || (Matches(fs[0], obj) && AllMatch(fs[1..], obj))
  }

  predicate AnyMatches(fs: seq<ObjectFilter>, obj: Option<UIObject>)
    decreases fs
  {
    |fs| > 0 && (Matches(fs[0], obj) || AnyMatches(fs[1..], obj))
  }

  lemma {:induction false} AllMatchIff(fs: seq<ObjectFilter>, obj: Option<UIObject>)
    ensures AllMatch(fs, obj) <==> forall i :: 0 <= i < |fs| ==> Matches(fs[i], obj)
    decreases |fs|
  {
    if |fs| > 0 {
      AllMatchIff(fs[1..], obj);
      assert forall i :: 1 <= i < |fs| ==> fs[i] == fs[1..][i - 1];
    }
  }

  lemma {:induction false} AnyMatchesIff(fs: seq<ObjectFilter>, obj: Option<UIObject>)
    ensures AnyMatches(fs, obj) <==> exists i :: 0 <= i < |fs| && Matches(fs[i], obj)
    decreases |fs|
  {
    if |fs| > 0 {
      AnyMatchesIff(fs[1..], obj);
      assert forall i :: 1 <= i < |fs| ==> fs[i] == fs[1..][i - 1];
    }
  }

  /** The combination law: every include matches and no exclude does. Empty
      lists therefore impose nothing. */
  lemma ComboObjectsLaw(includes: seq<ObjectFilter>, excludes: seq<ObjectFilter>, obj: Option<UIObject>)
    ensures Matches(ComboObjects(includes, excludes), obj) <==>
              (forall i :: 0 <= i < |includes| ==> Matches(includes[i], obj))
              && (forall j :: 0 <= j < |excludes| ==> !Matches(excludes[j], obj))
    ensures Matches(ComboObjects([], []), obj)
    ensures Matches(MatchAllObjects, obj)
  {
    AllMatchIff(includes, obj);
    AnyMatchesIff(excludes, obj);
  }

  /** The two loops of `ComboObjectFilter.matches`, counting how many
      sub-filters they consult: the first failing include ends the
      evaluation, and excludes are consulted only after every include
      passed. */
  method EvaluateComboObjects(includes: seq<ObjectFilter>, excludes: seq<ObjectFilter>, obj: Option<UIObject>)
    returns (r: bool, consulted: nat)
    ensures r <==> (forall i :: 0 <= i < |includes| ==> Matches(includes[i], obj))
                   && (forall j :: 0 <= j < |excludes| ==> !Matches(excludes[j], obj))
    ensures consulted <= |includes| + |excludes|
    ensures consulted < |includes| ==> !r
    ensures (exists i :: 0 <= i < |includes| && !Matches(includes[i], obj)) ==>
              0 < consulted <= |includes| && !Matches(includes[consulted - 1], obj)
              && forall i :: 0 <= i < consulted - 1 ==> Matches(includes[i], obj)
    ensures (forall i :: 0 <= i < |includes| ==> Matches(includes[i], obj)) ==> |includes| <= consulted
  {
    consulted := 0;
    var k := 0;
    while k < |includes|
      invariant k <= |includes|
      invariant consulted == k
      invariant forall i :: 0 <= i < k ==> Matches(includes[i], obj)
    {
      consulted := consulted + 1;
      if !Matches(includes[k], obj) {
        return false, consulted;
      }
      k := k + 1;
    }
    k := 0;
    while k < |excludes|
      invariant k <= |excludes|
      invariant consulted == |includes| + k
      invariant forall j :: 0 <= j < k ==> !Matches(excludes[j], obj)
    {
      consulted := consulted + 1;
      if Matches(excludes[k], obj) {
        return false, consulted;
      }
      k := k + 1;
    }
    r := true;
  }

  /** `GlobalFilter` (matches everything) and `ComboGlobalFilter`. */
  datatype GlobalFilter =
    | MatchAllGlobal
    | ComboGlobal(includes: seq<GlobalFilter>, excludes: seq<GlobalFilter>)

  predicate GlobalMatches(f: GlobalFilter)
    decreases f
  {
    match f
    case MatchAllGlobal => true
    case ComboGlobal(includes, excludes) => AllGlobalMatch(includes) && !AnyGlobalMatches(excludes)
  }

  predicate AllGlobalMatch(fs: seq<GlobalFilter>)
    decreases fs
  {
    |fs| == 0 || (GlobalMatches(fs[0]) && AllGlobalMatch(fs[1..]))
  }

  predicate AnyGlobalMatches(fs: seq<GlobalFilter>)
    decreases fs
  {
    |fs| > 0 && (GlobalMatches(fs[0]) || AnyGlobalMatches(fs[1..]))
  }

  lemma {:induction false} AllGlobalMatchIff(fs: seq<GlobalFilter>)
    ensures AllGlobalMatch(fs) <==> forall i :: 0 <= i < |fs| ==> GlobalMatches(fs[i])
    decreases |fs|
  {
    if |fs| > 0 {
      AllGlobalMatchIff(fs[1..]);
      assert forall i :: 1 <= i < |fs| ==> fs[i] == fs[1..][i - 1];
    }
  }

  lemma {:induction false} AnyGlobalMatchesIff(fs: seq<GlobalFilter>)
    ensures AnyGlobalMatches(fs) <==> exists i :: 0 <= i < |fs| && GlobalMatches(fs[i])
    decreases |fs|
  {
    if |fs| > 0 {
      AnyGlobalMatchesIff(fs[1..]);
      assert forall i :: 1 <= i < |fs| ==> fs[i] == fs[1..][i - 1];
    }
  }

  /** `ComboGlobalFilter` obeys the same all-include, no-exclude law. */
  lemma ComboGlobalLaw(includes: seq<GlobalFilter>, excludes: seq<GlobalFilter>)
    ensures GlobalMatches(ComboGlobal(includes, excludes)) <==>
              (forall i :: 0 <= i < |includes| ==> GlobalMatches(includes[i]))
              && (forall j :: 0 <= j < |excludes| ==> !GlobalMatches(excludes[j]))
    ensures GlobalMatches(ComboGlobal([], [])) && GlobalMatches(MatchAllGlobal)
  {
    AllGlobalMatchIff(includes);
    AnyGlobalMatchesIff(excludes);
  }
}
