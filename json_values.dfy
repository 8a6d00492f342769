/**
 * The values encoding/json produces when it decodes a body into map[string]interface{}
 * with UseNumber, and how fmt's `%v` verb renders them.
 */
module JsonValues {
  import opened Wrappers

  /** A decoded JSON value. A number keeps its literal text (json.Number); an object keeps
      its members in the order the body lists them, duplicates included. */
  datatype Json =
    | Null
    | Bool(b: bool)
    | Number(literal: string)
    | Str(s: string)
    | Array(items: seq<Json>)
    | Object(members: seq<(string, Json)>)

  /** Go's `<` on strings: lexicographic on the encoded text, which for Unicode scalar values
      is lexicographic on code points. */
  predicate Less(a: string, b: string) {
    if a == [] then b != []
    else if b == [] then false
    else if a[0] != b[0] then a[0] < b[0]
    else Less(a[1..], b[1..])
  }

  /** Inserts a rendered member into a list sorted by key; a member whose key is already
      present replaces the earlier one, as a later duplicate does in a decoded map. */
  function InsertMember(p: (string, string), sorted: seq<(string, string)>): seq<(string, string)> {
    if sorted == [] then [p]
    else if p.0 == sorted[0].0 then [p] + sorted[1..]
    else if Less(p.0, sorted[0].0) then [p] + sorted
    else [sorted[0]] + InsertMember(p, sorted[1..])
  }

  /** The members of a decoded map in the order fmt prints them: by key. */
  function MapOrder(ms: seq<(string, string)>, acc: seq<(string, string)>): seq<(string, string)>
    decreases |ms|
  {
    if ms == [] then acc else MapOrder(ms[1..], InsertMember(ms[0], acc))
  }

  function JoinSpace(parts: seq<string>): string {
    if parts == [] then ""
    else if |parts| == 1 then parts[0]
    else parts[0] + " " + JoinSpace(parts[1..])
  }

  function MemberTexts(ms: seq<(string, string)>): seq<string> {
    if ms == [] then [] else [ms[0].0 + ":" + ms[0].1] + MemberTexts(ms[1..])
  }

  /** fmt.Sprintf("%v", v): nil prints as `<nil>`, a json.Number as its literal, a string as
      itself, a slice as `[a b]` and a map as `map[k:v ...]` with its keys sorted. */
  function Render(v: Json): (r: string)
    ensures v.Null? ==> r == "<nil>"
    ensures v.Bool? ==> r == (if v.b then "true" else "false")
    ensures v.Number? ==> r == v.literal
    ensures v.Str? ==> r == v.s
    decreases v
  {
    match v
    case Null => "<nil>"
    case Bool(b) => if b then "true" else "false"
    case Number(literal) => literal
    case Str(s) => s
    case Array(items) =>
      "[" + JoinSpace(seq(|items|, i requires 0 <= i < |items| => Render(items[i]))) + "]"
    case Object(members) =>
      var rendered := seq(|members|, i requires 0 <= i < |members| => (members[i].0, Render(members[i].1)));
      "map[" + JoinSpace(MemberTexts(MapOrder(rendered, []))) + "]"
  }

  /** An array prints in square brackets and an object as `map[...]`. */
  lemma RenderBrackets(v: Json)
    ensures v.Array? ==> var r := Render(v); |r| >= 2 && r[0] == '[' && r[|r| - 1] == ']'
    ensures v.Object? ==> var r := Render(v); |r| >= 5 && r[..4] == "map[" && r[|r| - 1] == ']'
  { }

  /** A nested object prints with its keys sorted, and a repeated key keeps its last value. */
  lemma RenderSortsKeys()
    ensures Render(Object([("b", Number("2")), ("a", Bool(true)), ("b", Str("x"))])) == "map[a:true b:x]"
  {
    var ms := [("b", Number("2")), ("a", Bool(true)), ("b", Str("x"))];
    var rendered := [("b", "2"), ("a", "true"), ("b", "x")];
    assert seq(|ms|, i requires 0 <= i < |ms| => (ms[i].0, Render(ms[i].1))) == rendered;
    assert Less("a", "b") && !Less("b", "a");
    var one := InsertMember(("b", "2"), []);
    var two := InsertMember(("a", "true"), one);
    assert two == [("a", "true"), ("b", "2")];
    assert InsertMember(("b", "x"), two) == [("a", "true")] + InsertMember(("b", "x"), [("b", "2")]);
    assert MapOrder(rendered, []) == MapOrder([("b", "x")], two);
    assert MapOrder(rendered, []) == [("a", "true"), ("b", "x")];
    assert "a" + ":" + "true" == "a:true" && "b" + ":" + "x" == "b:x";
    assert MemberTexts([("a", "true"), ("b", "x")]) == ["a:true", "b:x"];
    assert JoinSpace(["a:true", "b:x"]) == "a:true" + " " + "b:x" == "a:true b:x";
    assert "map[" + "a:true b:x" + "]" == "map[a:true b:x]";
  }

  /** A value %v renders as something other than a number or a string literal. */
  predicate IsComposite(v: Json) {
    v.Null? || v.Bool? || v.Array? || v.Object?
  }

  /**
   * What the model relies on about strconv.ParseFloat, given as parse (None for an error):
   * it rejects `true`, `false` and `<nil>`, and every text that starts with `[` or `m`,
   * since a float's text starts with a sign, a digit, a point, `i`, `I`, `n` or `N`.
   */
  ghost predicate StrconvRejects(parse: string -> Option<real>) {
    parse("true").None? && parse("false").None? && parse("<nil>").None?
    && forall t: string :: |t| > 0 && (t[0] == '[' || t[0] == 'm') ==> parse(t).None?
  }

  /** Booleans, null, arrays and objects never render as a float. */
  lemma CompositeRejected(v: Json, parse: string -> Option<real>)
    requires StrconvRejects(parse) && IsComposite(v)
    ensures parse(Render(v)).None?
  {
    RenderBrackets(v);
    var r := Render(v);
    if v.Object? {
      assert r[0] == r[..4][0] == 'm';
    }
  }
}
