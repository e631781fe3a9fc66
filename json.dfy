/** The parsed authoring document, as rapidjson presents it to the compilers:
    objects are ORDERED member lists (duplicate names are kept, lookups find
    the first), arrays are sequences.

    rapidjson's accessors (`GetString`, `Size`, `MemberBegin`, `operator[]`)
    do not check the kind of the value they are applied to; the source calls
    them without checking either. The model reads a value of the wrong kind as
    the empty string, the empty array or the object without members. */
module Json {
  import opened Wrappers

  datatype Value =
    | Null
    | Bool(b: bool)
    | Number(n: real)
    | String(s: string)
    | Array(elements: seq<Value>)
    | Object(members: seq<Member>)

  datatype Member = Member(name: string, value: Value)

  /** The members of an object, in declaration order. */
  function Members(v: Value): seq<Member> {
    if v.Object? then v.members else []
  }

  /** `MemberCount()`. */
  function MemberCount(v: Value): nat {
    |Members(v)|
  }

  /** The first member named `name` (rapidjson's `FindMember`). */
  function Find(ms: seq<Member>, name: string): Option<Value> {
    if |ms| == 0 then None
    else if ms[0].name == name then Some(ms[0].value)
    else Find(ms[1..], name)
  }

  /** A lookup finds a member exactly when one has the name, and then the
      value of the first such member: later duplicates are shadowed. */
  lemma {:induction false} FindFirst(ms: seq<Member>, name: string)
    ensures Find(ms, name).Some? <==> exists i :: 0 <= i < |ms| && ms[i].name == name
    ensures Find(ms, name).Some? ==>
              exists i :: 0 <= i < |ms| && ms[i].name == name && ms[i].value == Find(ms, name).value &&
                          forall j :: 0 <= j < i ==> ms[j].name != name
    decreases |ms|
  {
    if |ms| > 0 && ms[0].name != name {
      FindFirst(ms[1..], name);
      assert forall i :: 1 <= i < |ms| ==> ms[i] == ms[1..][i - 1];
      if Find(ms, name).Some? {
        var k :| 0 <= k < |ms[1..]| && ms[1..][k].name == name && ms[1..][k].value == Find(ms, name).value &&
                 forall j :: 0 <= j < k ==> ms[1..][j].name != name;
        assert ms[k + 1].name == name && forall j :: 0 <= j < k + 1 ==> ms[j].name != name;
      }
    }
  }

  /** `HasMember(name)`. */
  predicate HasMember(v: Value, name: string) {
    Find(Members(v), name).Some?
  }

  /** `v[name]` for a member known to exist. */
  function Get(v: Value, name: string): Value
    requires HasMember(v, name)
  {
    Find(Members(v), name).value
  }

  /** `GetString()`. */
  function GetString(v: Value): string {
    if v.String? then v.s else ""
  }

  predicate NoNul(s: string) {
    forall i :: 0 <= i < |s| ==> s[i] != '\0'
  }

  /** `std::string(const char*)`, as every `std::string` made from `GetString()`
      is: the string up to its first NUL. */
  function CString(s: string): (r: string)
    ensures |r| <= |s| && r == s[..|r|] && NoNul(r)
    ensures |r| < |s| ==> s[|r|] == '\0'
  {
    if |s| == 0 || s[0] == '\0' then ""
    else
      var t := CString(s[1..]);
      assert s[1..][..|t|] == s[1..|t| + 1];
      [s[0]] + t
  }

  /** The C string is empty exactly when the string is, or starts with
      NUL. */
  lemma CStringEmpty(s: string)
    ensures CString(s) == "" <==> |s| == 0 || s[0] == '\0'
  {
  }

  /** The elements of an array; `Size()` is their number. */
  function Elements(v: Value): seq<Value> {
    if v.Array? then v.elements else []
  }
}
