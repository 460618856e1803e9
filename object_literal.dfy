/** What `counts[k] = (counts[k] || 0) + 1` does when `counts` is an object
    literal `{}`. Such an object inherits from `Object.prototype` (section
    20.1.3 of ECMA-262), so reading a key that it has not stored yet but
    that names a member of the prototype yields that member, not
    `undefined`. The members are functions, so `counts[k] || 0` is the
    function and `+ 1` concatenates its source text with "1"; the key
    `__proto__` reads the prototype object itself, and assigning a string
    to it is ignored by its setter (section B.2.2.1.2). These definitions
    describe that behaviour; the rest of the model counts with
    `JsObject.Tally`, which counts every key, as a prototype-free object
    does. */
module ObjectLiteral {
  import opened Seqs
  import JsObject

  /** The values the counting expression can meet. */
  datatype JsValue =
    | Undefined
    | Num(n: int)
    | Str(s: string)
    | NativeFunction(name: string)
    | PrototypeObject

  /** The members of `Object.prototype` that a key can name. */
  const PrototypeMembers: seq<string> := [
    "constructor", "hasOwnProperty", "isPrototypeOf", "propertyIsEnumerable",
    "toLocaleString", "toString", "valueOf", "__defineGetter__",
    "__defineSetter__", "__lookupGetter__", "__lookupSetter__", "__proto__"
  ]

  /** The value a key inherits from `Object.prototype`. The constructor is
      the function `Object`; the other methods carry their own names. */
  function Inherited(k: string): (v: JsValue)
    ensures v != Undefined <==> k in PrototypeMembers
  {
    if k == "__proto__" then PrototypeObject
    else if k == "constructor" then NativeFunction("Object")
    else if k in PrototypeMembers then NativeFunction(k)
    else Undefined
  }

  /** `counts[k]`: the stored value, else the inherited one. */
  function Get(own: map<string, JsValue>, k: string): JsValue {
    if k in own then own[k] else Inherited(k)
  }

  predicate Truthy(v: JsValue) {
    match v
    case Undefined => false
    case Num(n) => n != 0
    case Str(s) => s != ""
    case NativeFunction(_) => true
    case PrototypeObject => true
  }

  /** `String(f)` of a built-in function, as engines print it. */
  function FunctionText(name: string): string {
    "function " + name + "() { [native code] }"
  }

  /** `v + 1`: numbers add; anything else is turned into text and the
      digit "1" is appended. */
  function PlusOne(v: JsValue): (r: JsValue)
    ensures v.Num? ==> r == Num(v.n + 1)
    ensures !v.Num? ==> r.Str?
  {
    match v
    case Num(n) => Num(n + 1)
    case Str(s) => Str(s + "1")
    case NativeFunction(name) => Str(FunctionText(name) + "1")
    case PrototypeObject => Str("[object Object]1")
    case Undefined => Str("undefined1")
  }

  /** `counts[k] = v`: a string assigned to `__proto__` is dropped by its
      setter; every other key stores it as an own property. */
  function Put(own: map<string, JsValue>, k: string, v: JsValue): (r: map<string, JsValue>)
    ensures k != "__proto__" ==> r == own[k := v]
    ensures k == "__proto__" && !v.PrototypeObject? ==> r == own
  {
    if k == "__proto__" then own else own[k := v]
  }

  /** One step `counts[k] = (counts[k] || 0) + 1`. */
  function Increment(own: map<string, JsValue>, k: string): map<string, JsValue> {
    var seen := Get(own, k);
    Put(own, k, PlusOne(if Truthy(seen) then seen else Num(0)))
  }

  /** The object after counting the keys of `s` in order, as written. */
  function LiteralCount(s: seq<string>): (own: map<string, JsValue>)
    ensures forall k :: k in own ==> k in s
  {
    if |s| == 0 then map[]
    else Increment(LiteralCount(s[..|s| - 1]), s[|s| - 1])
  }

  /** Away from the prototype's names, the object literal does count. */
  lemma {:induction false} LiteralCountOrdinaryKey(s: seq<string>, k: string)
    requires k !in PrototypeMembers
    ensures Occurrences(s, k) > 0 ==> k in LiteralCount(s) && LiteralCount(s)[k] == Num(Occurrences(s, k))
    ensures Occurrences(s, k) == 0 ==> k !in LiteralCount(s)
  {
    if |s| > 0 {
      var p := s[..|s| - 1];
      LiteralCountOrdinaryKey(p, k);
    }
  }

  /** A tag "constructor" is shown with the text of the `Object` function
      as its count, where one occurrence was meant. */
  lemma ConstructorTagMiscounted()
    ensures LiteralCount(["constructor"])["constructor"]
            == Str("function Object() { [native code] }1")
  {
    var s := ["constructor"];
    assert s[..0] == [];
    assert Get(map[], "constructor") == NativeFunction("Object");
    ObjectFunctionText();
  }

  lemma ObjectFunctionText()
    ensures FunctionText("Object") + "1" == "function Object() { [native code] }1"
  {
  }

  /** A tag "__proto__" is never stored, so it is never listed. */
  lemma ProtoTagDropped()
    ensures "__proto__" !in LiteralCount(["__proto__"])
  {
    var s := ["__proto__"];
    assert s[..0] == [];
    assert LiteralCount(s) == Increment(map[], "__proto__");
  }

  /** Counting a single key lists it once, with count 1, whatever the key:
      "constructor" and "__proto__" included. */
  lemma TallySingle(k: string)
    ensures JsObject.Tally([k]) == [(k, 1)]
  {
    var s := [k];
    var e := JsObject.Tally(s);
    var names := JsObject.Names(e);
    assert k in names;
    JsObject.TallyLength(s);
    assert FirstSeen(s) == [k];
    assert e[0].0 == names[0] == k;
    assert s[..0] == [];
    assert Occurrences(s, k) == 1;
  }
}
