/** Reading and validating the scene items of one scene node: the light type
    names, the light sanity checks, the material scene items with their
    material-property overrides, and the sub-mesh material slots
    (SceneAssetCompiler.cpp, the `detail` functions and the item payloads). */
module SceneItems {
  import opened Wrappers
  import opened Json
  import opened SceneFormat

  /** Why the compilation of a scene asset throws. */
  datatype SceneError =
    | NoNodes
    | UnknownItemType(itemTypeName: string)
    | UnknownLightType(lightTypeName: string)
    | InvalidProperty(propertyName: string)
    | MissingProperty(propertyName: string)
    | NegativeLightColor
    | NonPositiveRadius
    | NonZeroDirectionalRadius
    | NegativeInnerAngle
    | OuterAngleTooLarge
    | InnerAngleNotSmallerThanOuter
    | NegativeNearClipDistance
    | AnglesWithIesLightProfile
    | NoMaterial
    | MaterialAndMaterialBlueprint
    | OutputWriteFailed

  /** The typed readers of `JsonHelper`. Each parses the value of a member
      that is present, or rejects it; their bodies are not part of this model. */
  datatype Readers = Readers(
    unit3: Value -> Option<Vec3>,       // optionalUnitNProperty(.., 3)
    rotation: Value -> Option<Quat>,    // optionalRotationQuaternionProperty
    factor3: Value -> Option<Vec3>,     // optionalFactorNProperty(.., 3)
    rgbColor: Value -> Option<Vec3>,    // optionalRgbColorProperty
    unit: Value -> Option<real>,        // optionalUnitNProperty(.., 1)
    angle: Value -> Option<real>,       // optionalAngleProperty: degrees in, radians out
    integer: Value -> Option<int>,      // optionalIntegerNProperty(.., 1)
    timeOfDay: Value -> Option<real>)   // optionalTimeOfDayProperty

  /** The `TYPE_ID` constant of each scene item class. Each is the string ID
      of the class name ("CameraSceneItem", "LightSceneItem", ...); the
      headers defining them are not part of this model. */
  datatype SceneItemTypeIds = SceneItemTypeIds(
    camera: u32, light: u32, sunlight: u32, mesh: u32, skeletonMesh: u32,
    sky: u32, volume: u32, grass: u32, terrain: u32, particles: u32)

  /** Everything the scene compiler takes from code outside this model: the
      scene item type IDs, the string hashing, the asset-ID resolution of the compilation input, the
      material helpers, the readers, and the default values of the format's
      structs. */
  datatype Context = Context(
    typeIds: SceneItemTypeIds,
    stringId: string -> u32,                       // Renderer::StringId
    compiledAssetId: string -> u32,                // JsonHelper::optionalCompiledAssetId / getCompiledAssetId
    assetIdByString: string -> u32,                // StringHelper::getAssetIdByString
    sourceAssetIdByString: string -> u32,          // StringHelper::getSourceAssetIdByString
    materialProperties: u32 -> seq<MaterialProperty>,   // JsonMaterialHelper::getPropertiesByMaterialAssetId
    blueprintProperties: u32 -> seq<MaterialProperty>,  // JsonMaterialBlueprintHelper::getPropertiesByMaterialBlueprintAssetId
    readPropertyValues: (Value, seq<MaterialProperty>) -> Option<seq<MaterialProperty>>,  // JsonMaterialHelper::readMaterialPropertyValues
    readers: Readers,
    defaultMaterialTechniqueId: u32,               // MaterialResourceManager::DEFAULT_MATERIAL_TECHNIQUE_ID
    defaultTransform: Transform,
    defaultLight: LightItem,
    defaultSunlight: SunlightItem)

  /** The `JsonHelper::optional*` convention: an absent member leaves the
      value unchanged, a present one is parsed or rejected. */
  function Optional<T>(parse: Value -> Option<T>, v: Value, name: string, current: T): Result<T, SceneError> {
    if !HasMember(v, name) then Success(current)
    else
      match parse(Get(v, name))
      case Some(x) => Success(x)
      case None => Failure(InvalidProperty(name))
  }

  /** `optionalCompiledAssetId`: the compiled asset ID of a present member. */
  function OptionalCompiledAssetId(ctx: Context, v: Value, name: string, current: u32): u32 {
    if HasMember(v, name) then ctx.compiledAssetId(GetString(Get(v, name))) else current
  }

  // ---------------------------------------------------------------------
  // Light type names
  // ---------------------------------------------------------------------

  const DIRECTIONAL_NAME := "DIRECTIONAL"
  const POINT_NAME := "POINT"
  const SPOT_NAME := "SPOT"

  /** The character at `i` of a NUL-terminated copy of `s`. */
  function CharAt(s: string, i: nat): char {
    if i < |s| then s[i] else '\0'
  }

  /** `strncmp(a + i, b + i, n - i) == 0` on NUL-terminated strings. */
  predicate StrNEqualFrom(a: string, b: string, i: nat, n: nat)
    decreases n - i
  {
    i >= n || (CharAt(a, i) == CharAt(b, i) && (CharAt(a, i) == '\0' || StrNEqualFrom(a, b, i + 1, n)))
  }

  /** `strncmp(a, b, n) == 0`. */
  predicate StrNEqual(a: string, b: string, n: nat) {
    StrNEqualFrom(a, b, 0, n)
  }

  lemma {:induction false} StrNEqualFromPrefix(a: string, b: string, i: nat)
    requires NoNul(a) && NoNul(b) && i <= |a| && i <= |b|
    ensures StrNEqualFrom(a, b, i, |a|) <==> |a| <= |b| && a[i..] == b[i..|a|]
    decreases |a| - i
  {
    if i < |a| && i < |b| {
      StrNEqualFromPrefix(a, b, i + 1);
      if |a| <= |b| && a[i..] == b[i..|a|] {
        assert a[i] == a[i..][0] == b[i];
        assert a[i + 1..] == a[i..][1..] == b[i + 1..|a|];
      }
      if StrNEqualFrom(a, b, i, |a|) {
        assert CharAt(a, i) == CharAt(b, i) && a[i] != '\0';
        assert i < |b|;
        assert a[i..] == [a[i]] + a[i + 1..];
        assert b[i..|a|] == [b[i]] + b[i + 1..|a|];
      }
    }
  }

  /** `strncmp` over the value's own length compares only that many
      characters: for strings without NUL it holds exactly when the value is
      a prefix of the constant name. */
  lemma StrNEqualIsPrefix(value: string, name: string)
    requires NoNul(value) && NoNul(name)
    ensures StrNEqual(value, name, |value|) <==> |value| <= |name| && value == name[..|value|]
  {
    StrNEqualFromPrefix(value, name, 0);
  }

  /** `optionalLightTypeProperty` as written: the names are tried in the order
      DIRECTIONAL, POINT, SPOT with `strncmp(value, name, valueLength)`. */
  function OptionalLightTypePropertyAsWritten(v: Value, propertyName: string, current: LightType): Result<LightType, SceneError> {
    if !HasMember(v, propertyName) then Success(current)
    else
      var s := GetString(Get(v, propertyName));
      if StrNEqual(s, DIRECTIONAL_NAME, |s|) then Success(DIRECTIONAL)
      else if StrNEqual(s, POINT_NAME, |s|) then Success(POINT)
      else if StrNEqual(s, SPOT_NAME, |s|) then Success(SPOT)
      else Failure(UnknownLightType(CString(s)))
  }

  /** The light type that the as-written reader accepts for a NUL-free value:
      the first constant that the value is a prefix of. */
  lemma LightTypeAsWrittenAcceptsPrefixes(v: Value, propertyName: string, current: LightType)
    requires HasMember(v, propertyName) && NoNul(GetString(Get(v, propertyName)))
    ensures var s := GetString(Get(v, propertyName));
            var r := OptionalLightTypePropertyAsWritten(v, propertyName, current);
            && (r == Success(DIRECTIONAL) <==> IsPrefix(s, DIRECTIONAL_NAME))
            && (r == Success(POINT) <==> !IsPrefix(s, DIRECTIONAL_NAME) && IsPrefix(s, POINT_NAME))
            && (r == Success(SPOT) <==> !IsPrefix(s, DIRECTIONAL_NAME) && !IsPrefix(s, POINT_NAME) && IsPrefix(s, SPOT_NAME))
            && (r.Failure? <==> !IsPrefix(s, DIRECTIONAL_NAME) && !IsPrefix(s, POINT_NAME) && !IsPrefix(s, SPOT_NAME))
            && (r.Failure? ==> r.error == UnknownLightType(s))
  {
    var s := GetString(Get(v, propertyName));
    StrNEqualIsPrefix(s, DIRECTIONAL_NAME);
    StrNEqualIsPrefix(s, POINT_NAME);
    StrNEqualIsPrefix(s, SPOT_NAME);
    assert CString(s) == s by {
      if |CString(s)| < |s| {
        assert false;
      }
    }
  }

  predicate IsPrefix(s: string, name: string) {
    |s| <= |name| && s == name[..|s|]
  }

  /** The discrepancy: the empty string and any abbreviation such as "P" are
      accepted as light types. */
  lemma LightTypeAsWrittenAcceptsAbbreviations()
    ensures OptionalLightTypePropertyAsWritten(Object([Member("LightType", String(""))]), "LightType", SPOT) == Success(DIRECTIONAL)
    ensures OptionalLightTypePropertyAsWritten(Object([Member("LightType", String("P"))]), "LightType", SPOT) == Success(POINT)
  {
    var empty := Object([Member("LightType", String(""))]);
    assert GetString(Get(empty, "LightType")) == "";
    assert StrNEqual("", DIRECTIONAL_NAME, 0);
    var p := Object([Member("LightType", String("P"))]);
    assert GetString(Get(p, "LightType")) == "P";
    assert !StrNEqual("P", DIRECTIONAL_NAME, 1) by {
      assert CharAt("P", 0) != CharAt(DIRECTIONAL_NAME, 0);
    }
    assert StrNEqual("P", POINT_NAME, 1) by {
      assert CharAt("P", 0) == CharAt(POINT_NAME, 0);
      assert StrNEqualFrom("P", POINT_NAME, 1, 1);
    }
  }

  /** `optionalLightTypeProperty` as evidently intended: the value must be one
      of the three constant names. An absent member leaves the value
      unchanged; an unknown name throws, naming the string. */
  function OptionalLightTypeProperty(v: Value, propertyName: string, current: LightType): Result<LightType, SceneError> {
    if !HasMember(v, propertyName) then Success(current)
    else
      var s := GetString(Get(v, propertyName));
      if s == DIRECTIONAL_NAME then Success(DIRECTIONAL)
      else if s == POINT_NAME then Success(POINT)
      else if s == SPOT_NAME then Success(SPOT)
      else Failure(UnknownLightType(CString(s)))
  }

  /** The corrected reader accepts exactly the three names and agrees with
      the as-written one on them; everything else, the empty string and the
      abbreviations included, is rejected with an error naming the value. */
  lemma LightTypeNamesExact(v: Value, propertyName: string, current: LightType)
    ensures var r := OptionalLightTypeProperty(v, propertyName, current);
            && (!HasMember(v, propertyName) ==> r == Success(current))
            && (HasMember(v, propertyName) ==>
                  var s := GetString(Get(v, propertyName));
                  && (r == Success(DIRECTIONAL) <==> s == "DIRECTIONAL")
                  && (r == Success(POINT) <==> s == "POINT")
                  && (r == Success(SPOT) <==> s == "SPOT")
                  && (r.Failure? <==> s !in {"DIRECTIONAL", "POINT", "SPOT"})
                  && (r.Failure? ==> r.error == UnknownLightType(CString(s)))
                  && (r.Success? ==> r == OptionalLightTypePropertyAsWritten(v, propertyName, current)))
  {
    if HasMember(v, propertyName) {
      var s := GetString(Get(v, propertyName));
      if s == DIRECTIONAL_NAME {
        StrNEqualIsPrefix(s, DIRECTIONAL_NAME);
      } else if s == POINT_NAME {
        StrNEqualIsPrefix(s, DIRECTIONAL_NAME);
        StrNEqualIsPrefix(s, POINT_NAME);
      } else if s == SPOT_NAME {
        StrNEqualIsPrefix(s, DIRECTIONAL_NAME);
        StrNEqualIsPrefix(s, POINT_NAME);
        StrNEqualIsPrefix(s, SPOT_NAME);
      }
    }
  }

  // ---------------------------------------------------------------------
  // Light items
  // ---------------------------------------------------------------------

  /** `glm::radians(90.0f)`: the single-precision float nearest to pi / 2. */
  const RADIANS_90: real := 1.57079637050628662109375

  /** The light item before its sanity checks: the struct's defaults
      overwritten by the members that are present. The light type is read by
      the corrected exact comparison, `OptionalLightTypeProperty`, not by
      the source's prefix comparison. */
  function ReadLightProperties(ctx: Context, v: Value): Result<LightItem, SceneError> {
    var d := ctx.defaultLight;
    var lightType :- OptionalLightTypeProperty(v, "LightType", d.lightType);
    var color :- Optional(ctx.readers.rgbColor, v, "Color", d.color);
    var radius :- Optional(ctx.readers.unit, v, "Radius", d.radius);
    var innerAngle :- Optional(ctx.readers.angle, v, "InnerAngle", d.innerAngle);
    var outerAngle :- Optional(ctx.readers.angle, v, "OuterAngle", d.outerAngle);
    var nearClipDistance :- Optional(ctx.readers.unit, v, "NearClipDistance", d.nearClipDistance);
    var iesLightProfileIndex :- Optional(ctx.readers.integer, v, "IesLightProfileIndex", d.iesLightProfileIndex);
    Success(LightItem(lightType, color, radius, innerAngle, outerAngle, nearClipDistance, iesLightProfileIndex))
  }

  /** The light sanity checks, in the source's order. A light passes exactly
      when its colour is non-negative, its radius is zero for a directional
      light and positive otherwise, 0 <= inner < outer < 90 degrees, its near
      clip distance is non-negative, and an IES light profile is not combined
      with explicit spot angles. */
  function CheckLightItem(l: LightItem, anglesGiven: bool): Outcome<SceneError> {
    if l.color.x < 0.0 || l.color.y < 0.0 || l.color.z < 0.0 then Fail(NegativeLightColor)
    else if l.lightType != DIRECTIONAL && l.radius <= 0.0 then Fail(NonPositiveRadius)
    else if l.lightType == DIRECTIONAL && l.radius != 0.0 then Fail(NonZeroDirectionalRadius)
    else if l.innerAngle < 0.0 then Fail(NegativeInnerAngle)
    else if l.outerAngle >= RADIANS_90 then Fail(OuterAngleTooLarge)
    else if l.innerAngle >= l.outerAngle then Fail(InnerAngleNotSmallerThanOuter)
    else if l.nearClipDistance < 0.0 then Fail(NegativeNearClipDistance)
    else if l.iesLightProfileIndex >= 0 && anglesGiven then Fail(AnglesWithIesLightProfile)
    else Pass
  }

  /** The meaning of the checks as a whole, and which error a light with a
      radius of the wrong kind gets. */
  lemma LightSanityChecks(l: LightItem, anglesGiven: bool)
    ensures CheckLightItem(l, anglesGiven).Pass? <==>
              && l.color.x >= 0.0 && l.color.y >= 0.0 && l.color.z >= 0.0
              && (l.lightType == DIRECTIONAL <==> l.radius == 0.0)
              && (l.lightType != DIRECTIONAL ==> l.radius > 0.0)
              && 0.0 <= l.innerAngle < l.outerAngle < RADIANS_90
              && l.nearClipDistance >= 0.0
              && (l.iesLightProfileIndex >= 0 ==> !anglesGiven)
    ensures l.lightType == DIRECTIONAL && l.radius != 0.0 && l.color.x >= 0.0 && l.color.y >= 0.0 && l.color.z >= 0.0
            ==> CheckLightItem(l, anglesGiven) == Fail(NonZeroDirectionalRadius)
    ensures l.lightType != DIRECTIONAL && l.radius <= 0.0 && l.color.x >= 0.0 && l.color.y >= 0.0 && l.color.z >= 0.0
            ==> CheckLightItem(l, anglesGiven) == Fail(NonPositiveRadius)
  {
  }

  /** The payload of a light item: read, then checked. */
  function ReadLightItem(ctx: Context, v: Value): Result<LightItem, SceneError> {
    var l :- ReadLightProperties(ctx, v);
    var anglesGiven := HasMember(v, "InnerAngle") || HasMember(v, "OuterAngle");
    match CheckLightItem(l, anglesGiven)
    case Pass => Success(l)
    case Fail(e) => Failure(e)
  }

  /** A light item is accepted exactly when its properties read and pass the
      sanity checks, and then it is the light that was read. */
  lemma ReadLightItemChecked(ctx: Context, v: Value)
    ensures var r := ReadLightItem(ctx, v);
            && (r.Success? <==>
                  && ReadLightProperties(ctx, v).Success?
                  && CheckLightItem(ReadLightProperties(ctx, v).value, HasMember(v, "InnerAngle") || HasMember(v, "OuterAngle")).Pass?)
            && (r.Success? ==> r.value == ReadLightProperties(ctx, v).value)
            && (r.Success? ==> 0.0 <= r.value.innerAngle < r.value.outerAngle < RADIANS_90)
            && (r.Success? ==> (r.value.lightType == DIRECTIONAL <==> r.value.radius == 0.0))
  {
    if ReadLightProperties(ctx, v).Success? {
      LightSanityChecks(ReadLightProperties(ctx, v).value, HasMember(v, "InnerAngle") || HasMember(v, "OuterAngle"));
    }
  }

  /** The payload of a sunlight item: the struct's defaults overwritten by the
      members that are present; there are no checks. */
  function ReadSunlightItem(ctx: Context, v: Value): Result<SunlightItem, SceneError> {
    var d := ctx.defaultSunlight;
    var sunriseTime :- Optional(ctx.readers.timeOfDay, v, "SunriseTime", d.sunriseTime);
    var sunsetTime :- Optional(ctx.readers.timeOfDay, v, "SunsetTime", d.sunsetTime);
    var eastDirection :- Optional(ctx.readers.angle, v, "EastDirection", d.eastDirection);
    var angleOfIncidence :- Optional(ctx.readers.angle, v, "AngleOfIncidence", d.angleOfIncidence);
    var timeOfDay :- Optional(ctx.readers.timeOfDay, v, "TimeOfDay", d.timeOfDay);
    Success(SunlightItem(sunriseTime, sunsetTime, eastDirection, angleOfIncidence, timeOfDay))
  }

  // ---------------------------------------------------------------------
  // Material-property overrides
  // ---------------------------------------------------------------------

  /** The IDs of the properties a scene item sets explicitly. */
  function DefinedIds(ctx: Context, ms: seq<Member>): set<u32> {
    if |ms| == 0 then {} else DefinedIds(ctx, ms[..|ms| - 1]) + {ctx.stringId(CString(ms[|ms| - 1].name))}
  }

  /** The defined IDs are exactly the string IDs of the member names, each
      hashed as a C string. */
  lemma {:induction false} DefinedIdsOfNames(ctx: Context, ms: seq<Member>)
    ensures forall i :: 0 <= i < |ms| ==> ctx.stringId(CString(ms[i].name)) in DefinedIds(ctx, ms)
    ensures forall id :: id in DefinedIds(ctx, ms) ==> exists i :: 0 <= i < |ms| && id == ctx.stringId(CString(ms[i].name))
    decreases |ms|
  {
    if |ms| > 0 {
      DefinedIdsOfNames(ctx, ms[..|ms| - 1]);
      assert forall i :: 0 <= i < |ms| - 1 ==> ms[..|ms| - 1][i] == ms[i];
    }
  }

  /** The loop collecting `definedMaterialPropertyIds`; a repeated name is
      kept once, as `emplace` does. */
  method CollectDefinedMaterialPropertyIds(ctx: Context, ms: seq<Member>) returns (ids: set<u32>)
    ensures forall i :: 0 <= i < |ms| ==> ctx.stringId(CString(ms[i].name)) in ids
    ensures forall id :: id in ids ==> exists i :: 0 <= i < |ms| && id == ctx.stringId(CString(ms[i].name))
    ensures ids == DefinedIds(ctx, ms)
  {
    DefinedIdsOfNames(ctx, ms);
    ids := {};
    var i := 0;
    while i < |ms|
      invariant 0 <= i <= |ms|
      invariant ids == DefinedIds(ctx, ms[..i])
    {
      assert ms[..i + 1][..i] == ms[..i];
      ids := ids + {ctx.stringId(CString(ms[i].name))};
      i := i + 1;
    }
    assert ms[..|ms|] == ms;
  }

  /** `setOverwritten(true)` on every property whose ID is explicitly set.
      Order, IDs and values are kept; no other flag changes. */
  function MarkOverwritten(ps: seq<MaterialProperty>, ids: set<u32>): seq<MaterialProperty> {
    if |ps| == 0 then []
    else
      var last := ps[|ps| - 1];
      MarkOverwritten(ps[..|ps| - 1], ids) + [last.(overwritten := last.overwritten || last.id in ids)]
  }

  lemma {:induction false} MarkOverwrittenFlags(ps: seq<MaterialProperty>, ids: set<u32>)
    ensures var r := MarkOverwritten(ps, ids);
            && |r| == |ps|
            && forall i :: 0 <= i < |ps| ==>
                 && r[i].id == ps[i].id && r[i].value == ps[i].value
                 && (r[i].overwritten <==> ps[i].overwritten || ps[i].id in ids)
    decreases |ps|
  {
    if |ps| > 0 {
      MarkOverwrittenFlags(ps[..|ps| - 1], ids);
    }
  }

  /** The marking loop over the vector, in place. */
  method MarkOverwrittenInPlace(a: array<MaterialProperty>, ids: set<u32>)
    modifies a
    ensures a[..] == MarkOverwritten(old(a[..]), ids)
  {
    var i := 0;
    while i < a.Length
      invariant 0 <= i <= a.Length
      invariant a[..i] == MarkOverwritten(old(a[..i]), ids)
      invariant a[i..] == old(a[i..])
    {
      assert old(a[..i + 1])[..i] == old(a[..i]);
      assert old(a[..i + 1])[i] == old(a[i]) == a[i];
      if a[i].id in ids {
        a[i] := a[i].(overwritten := true);
      }
      assert a[..i + 1] == a[..i] + [a[i]];
      assert a[i + 1..] == old(a[i + 1..]) by {
        assert forall k :: i + 1 <= k < a.Length ==> a[k] == old(a[i..])[k - i];
      }
      i := i + 1;
    }
    assert a[..] == a[..a.Length];
    assert old(a[..]) == old(a[..a.Length]);
  }

  /** The properties the scene item's material or material blueprint declares:
      `Material` takes precedence over `MaterialBlueprint`. */
  function DeclaredMaterialProperties(ctx: Context, v: Value): seq<MaterialProperty> {
    if HasMember(v, "Material") then ctx.materialProperties(ctx.sourceAssetIdByString(GetString(Get(v, "Material"))))
    else if HasMember(v, "MaterialBlueprint") then ctx.blueprintProperties(ctx.sourceAssetIdByString(GetString(Get(v, "MaterialBlueprint"))))
    else []
  }

  /** `fillSortedMaterialPropertyVector`, as a function of the scene item:
      empty unless `SetMaterialProperties` is present and the referenced
      material declares properties; otherwise the declared properties with
      the set values read in and the explicitly set ones marked overwritten. */
  function SortedMaterialProperties(ctx: Context, v: Value): Result<seq<MaterialProperty>, SceneError> {
    if !HasMember(v, "SetMaterialProperties") then Success([])
    else
      var declared := DeclaredMaterialProperties(ctx, v);
      if |declared| == 0 then Success([])
      else
        var setValues := Get(v, "SetMaterialProperties");
        match ctx.readPropertyValues(setValues, declared)
        case None => Failure(InvalidProperty("SetMaterialProperties"))
        case Some(values) => Success(MarkOverwritten(values, DefinedIds(ctx, Members(setValues))))
  }

  /** What the override vector is: nothing without `SetMaterialProperties`;
      otherwise, whenever the value reader succeeds, the read vector in the
      same order and length, each property overwritten exactly when it was
      already or its ID is a key of `SetMaterialProperties` (other keys are
      ignored). */
  lemma SortedMaterialPropertiesMeaning(ctx: Context, v: Value)
    ensures !HasMember(v, "SetMaterialProperties") ==> SortedMaterialProperties(ctx, v) == Success([])
    ensures HasMember(v, "SetMaterialProperties") && |DeclaredMaterialProperties(ctx, v)| > 0
            && ctx.readPropertyValues(Get(v, "SetMaterialProperties"), DeclaredMaterialProperties(ctx, v)).Some? ==>
              var setValues := Get(v, "SetMaterialProperties");
              var values := ctx.readPropertyValues(setValues, DeclaredMaterialProperties(ctx, v)).value;
              var r := SortedMaterialProperties(ctx, v);
              && r.Success? && |r.value| == |values|
              && forall i :: 0 <= i < |values| ==>
                   && r.value[i].id == values[i].id && r.value[i].value == values[i].value
                   && (r.value[i].overwritten <==>
                         values[i].overwritten || exists k :: 0 <= k < |Members(setValues)| && ctx.stringId(CString(Members(setValues)[k].name)) == values[i].id)
  {
    if HasMember(v, "SetMaterialProperties") && |DeclaredMaterialProperties(ctx, v)| > 0 {
      var setValues := Get(v, "SetMaterialProperties");
      if ctx.readPropertyValues(setValues, DeclaredMaterialProperties(ctx, v)).Some? {
        MarkOverwrittenFlags(ctx.readPropertyValues(setValues, DeclaredMaterialProperties(ctx, v)).value, DefinedIds(ctx, Members(setValues)));
        DefinedIdsOfNames(ctx, Members(setValues));
      }
    }
  }

  /** `fillSortedMaterialPropertyVector`: the helper fills the vector, the
      value reader updates it, and the marking loop runs in place. */
  method FillSortedMaterialPropertyVector(ctx: Context, v: Value) returns (r: Result<seq<MaterialProperty>, SceneError>)
    ensures r == SortedMaterialProperties(ctx, v)
  {
    if !HasMember(v, "SetMaterialProperties") {
      return Success([]);
    }
    var declared := DeclaredMaterialProperties(ctx, v);
    if |declared| == 0 {
      return Success([]);
    }
    var setValues := Get(v, "SetMaterialProperties");
    var values := ctx.readPropertyValues(setValues, declared);
    if values.None? {
      return Failure(InvalidProperty("SetMaterialProperties"));
    }
    var ids := CollectDefinedMaterialPropertyIds(ctx, Members(setValues));
    var a := new MaterialProperty[|values.value|](i requires 0 <= i < |values.value| => values.value[i]);
    assert a[..] == values.value;
    MarkOverwrittenInPlace(a, ids);
    r := Success(a[..]);
  }

  // ---------------------------------------------------------------------
  // Material scene items
  // ---------------------------------------------------------------------

  /** `readMaterialSceneItem`: exactly one of the material and the material
      blueprint asset IDs must be valid; an invalid technique becomes the
      default technique; the property count is the vector's size. */
  function ReadMaterialSceneItem(ctx: Context, ps: seq<MaterialProperty>, v: Value): Result<MaterialItem, SceneError> {
    var materialAssetId := OptionalCompiledAssetId(ctx, v, "Material", INVALID);
    var materialTechniqueId := if HasMember(v, "MaterialTechnique") then ctx.stringId(GetString(Get(v, "MaterialTechnique"))) else INVALID;
    var materialBlueprintAssetId := OptionalCompiledAssetId(ctx, v, "MaterialBlueprint", INVALID);
    if !IsValid(materialAssetId) && !IsValid(materialBlueprintAssetId) then Failure(NoMaterial)
    else if IsValid(materialAssetId) && IsValid(materialBlueprintAssetId) then Failure(MaterialAndMaterialBlueprint)
    else
      var technique := if !IsValid(materialTechniqueId) then ctx.defaultMaterialTechniqueId else materialTechniqueId;
      Success(MaterialItem(materialAssetId, technique, materialBlueprintAssetId, |ps|))
  }

  /** A material scene item names exactly one of a material and a material
      blueprint (the two errors telling which way it failed), carries the
      technique or the default one, and counts the override vector. */
  lemma MaterialSceneItemMeaning(ctx: Context, ps: seq<MaterialProperty>, v: Value)
    ensures var r := ReadMaterialSceneItem(ctx, ps, v);
            var m := OptionalCompiledAssetId(ctx, v, "Material", INVALID);
            var b := OptionalCompiledAssetId(ctx, v, "MaterialBlueprint", INVALID);
            var t := if HasMember(v, "MaterialTechnique") then ctx.stringId(GetString(Get(v, "MaterialTechnique"))) else INVALID;
            && (r.Success? <==> IsValid(m) != IsValid(b))
            && (!IsValid(m) && !IsValid(b) ==> r == Failure(NoMaterial))
            && (IsValid(m) && IsValid(b) ==> r == Failure(MaterialAndMaterialBlueprint))
            && (r.Success? ==> r.value.materialAssetId == m && r.value.materialBlueprintAssetId == b)
            && (r.Success? ==> r.value.numberOfMaterialProperties == |ps|)
            && (r.Success? ==> r.value.materialTechniqueId == (if IsValid(t) then t else ctx.defaultMaterialTechniqueId))
  {
  }

  // ---------------------------------------------------------------------
  // Sub-mesh materials
  // ---------------------------------------------------------------------

  /** One sub-mesh material slot: the element is read as a `std::string`,
      which ends at the first NUL; the empty string keeps the sub-mesh's own
      material (the invalid ID), any other string is resolved. */
  function SubMeshMaterialSlot(ctx: Context, e: Value): u32 {
    var s := CString(GetString(e));
    if s == "" then INVALID else ctx.assetIdByString(s)
  }

  /** The declared sub-mesh materials: `SubMeshMaterials` or none. */
  function SubMeshMaterials(v: Value): seq<Value> {
    if HasMember(v, "SubMeshMaterials") then Elements(Get(v, "SubMeshMaterials")) else []
  }

  /** A slot is invalid exactly for an empty string or one starting with
      NUL; otherwise it holds the asset ID of the string up to its first
      NUL. */
  lemma SubMeshMaterialSlotMeaning(ctx: Context, e: Value)
    ensures var s := GetString(e);
            && (|s| == 0 || s[0] == '\0' ==> SubMeshMaterialSlot(ctx, e) == INVALID)
            && (|s| > 0 && s[0] != '\0' ==> SubMeshMaterialSlot(ctx, e) == ctx.assetIdByString(CString(s)))
  {
    CStringEmpty(GetString(e));
  }

  /** The sub-mesh material asset IDs: one slot per array element, in order. */
  function SubMeshMaterialAssetIds(ctx: Context, es: seq<Value>): seq<u32> {
    if |es| == 0 then []
    else SubMeshMaterialAssetIds(ctx, es[..|es| - 1]) + [SubMeshMaterialSlot(ctx, es[|es| - 1])]
  }

  lemma {:induction false} SubMeshMaterialSlots(ctx: Context, es: seq<Value>)
    ensures |SubMeshMaterialAssetIds(ctx, es)| == |es|
    ensures forall i :: 0 <= i < |es| ==> SubMeshMaterialAssetIds(ctx, es)[i] == SubMeshMaterialSlot(ctx, es[i])
    decreases |es|
  {
    if |es| > 0 {
      SubMeshMaterialSlots(ctx, es[..|es| - 1]);
    }
  }

  /** The loop filling `subMeshMaterialAssetIds`. */
  method ReadSubMeshMaterialAssetIds(ctx: Context, v: Value) returns (ids: seq<u32>)
    ensures |ids| == |SubMeshMaterials(v)|
    ensures forall i :: 0 <= i < |ids| ==>
              var s := GetString(SubMeshMaterials(v)[i]);
              && (|s| == 0 || s[0] == '\0' ==> ids[i] == INVALID)
              && (|s| > 0 && s[0] != '\0' ==> ids[i] == ctx.assetIdByString(CString(s)))
    ensures ids == SubMeshMaterialAssetIds(ctx, SubMeshMaterials(v))
  {
    SubMeshMaterialSlots(ctx, SubMeshMaterials(v));
    forall e | e in SubMeshMaterials(v) {
      SubMeshMaterialSlotMeaning(ctx, e);
    }
    ids := [];
    if HasMember(v, "SubMeshMaterials") {
      var es := Elements(Get(v, "SubMeshMaterials"));
      var i := 0;
      while i < |es|
        invariant 0 <= i <= |es|
        invariant ids == SubMeshMaterialAssetIds(ctx, es[..i])
      {
        assert es[..i + 1][..i] == es[..i];
        var s := CString(GetString(es[i]));
        ids := ids + [if s == "" then INVALID else ctx.assetIdByString(s)];
        i := i + 1;
      }
      assert es[..|es|] == es;
    }
  }
}
