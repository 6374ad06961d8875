/** The slice of JavaScript value semantics the pages rely on: truthiness
    (`if (x)`, `a && b`, `x || y`), string conversion in template literals,
    `Array.prototype.join`, `String.prototype.trim`, and the two ways a call
    can end (return or throw). */
module Js {
  import opened Text

  /** A JavaScript value. Numbers are integer-valued; `Obj` stands for every
      object (arrays, functions, React elements, errors) and carries the text
      its string conversion produces. */
  datatype JsValue =
    | Undefined
    | Null
    | Bool(b: bool)
    | Num(n: int)
    | Str(s: string)
    | Obj(text: string)

  /** ECMAScript ToBoolean. */
  predicate Truthy(v: JsValue) {
    match v
    case Undefined => false
    case Null => false
    case Bool(b) => b
    case Num(n) => n != 0
    case Str(s) => s != ""
    case Obj(_) => true
  }

  /** The string a template literal `${v}` (ECMAScript ToString) produces. */
  function ToText(v: JsValue): string {
    match v
    case Undefined => "undefined"
    case Null => "null"
    case Bool(b) => if b then "true" else "false"
    case Num(n) => IntToDecimal(n)
    case Str(s) => s
    case Obj(text) => text
  }

  /** How `Array.prototype.join` renders one element: `undefined` and `null`
      become the empty string, everything else its ToString. */
  function JoinPart(v: JsValue): (r: string)
    ensures v.Undefined? || v.Null? ==> r == ""
    ensures !v.Undefined? && !v.Null? ==> r == ToText(v)
  {
    if v.Undefined? || v.Null? then "" else ToText(v)
  }

  /** `args.join(' ')`. */
  function JoinArgs(args: seq<JsValue>): (r: string)
    ensures |args| == 0 ==> r == ""
    ensures |args| == 1 ==> r == JoinPart(args[0])
  {
    Join(JoinParts(args), " ")
  }

  /** Each argument rendered as `join` renders it. */
  function JoinParts(args: seq<JsValue>): (r: seq<string>)
    ensures |r| == |args|
    ensures forall k :: 0 <= k < |args| ==> r[k] == JoinPart(args[k])
  {
    seq(|args|, k requires 0 <= k < |args| => JoinPart(args[k]))
  }

  /** One more argument adds a single space and that argument's rendering at
      the end, so `join` renders any number of arguments in order. */
  lemma JoinArgsSnoc(args: seq<JsValue>, v: JsValue)
    requires |args| >= 1
    ensures JoinArgs(args + [v]) == JoinArgs(args) + " " + JoinPart(v)
  {
    assert JoinParts(args + [v]) == JoinParts(args) + [JoinPart(v)];
    JoinSnoc(JoinParts(args), JoinPart(v), " ");
  }

  /** Two arguments are joined around one space. */
  lemma JoinArgsPair(a: JsValue, b: JsValue)
    ensures JoinArgs([a, b]) == JoinPart(a) + " " + JoinPart(b)
  {
    JoinArgsSnoc([a], b);
    assert [a] + [b] == [a, b];
  }

  /** The JavaScript white-space and line-terminator code points that
      `String.prototype.trim` removes. */
  predicate IsJsWhitespace(c: char) {
    || c == '\t' || c == '\n' || c == '\U{000B}' || c == '\U{000C}' || c == '\r'
    || c == ' ' || c == '\U{00A0}' || c == '\U{1680}'
    || ('\U{2000}' <= c <= '\U{200A}')
    || c == '\U{2028}' || c == '\U{2029}' || c == '\U{202F}' || c == '\U{205F}'
    || c == '\U{3000}' || c == '\U{FEFF}'
  }

  /** `s.trim()`. */
  function Trim(s: string): (r: string)
    ensures |r| <= |s|
    ensures r == "" <==> forall k :: 0 <= k < |s| ==> IsJsWhitespace(s[k])
  {
    TrimBy(s, IsJsWhitespace)
  }

  /** How one call into foreign code ends: normally with a value, or by
      throwing; `Throw` carries the `.message` property of what was thrown. */
  datatype Completion = Return(value: JsValue) | Throw(message: JsValue)
}
