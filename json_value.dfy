/**
 * The parsed document that `json5.loads` returns and `json.dumps` serialises, with the
 * two operations sort_file.py performs on it directly: the dotted-path lookup
 * `_get_by_path` (and the in-place update that sorting the list found there amounts
 * to), and `str()` of a value, which the sort key is built from.
 */
module JsonValue {
  import opened Wrappers
  import opened Text

  /** An object keeps its members in insertion order, as a Python dict does. */
  datatype Value =
    | Null
    | Bool(b: bool)
    | Num(n: int)
    | Str(s: string)
    | Arr(items: seq<Value>)
    | Obj(members: seq<(string, Value)>)

  /** Python's `bool(v)`: None, False, 0, "", [] and {} are false. */
  predicate Truthy(v: Value) {
    match v
    case Null => false
    case Bool(b) => b
    case Num(n) => n != 0
    case Str(s) => s != ""
    case Arr(items) => items != []
    case Obj(members) => members != []
  }

  /** `d.get(key)` */
  function Lookup(members: seq<(string, Value)>, key: string): (r: Option<Value>)
    ensures r.None? <==> forall i :: 0 <= i < |members| ==> members[i].0 != key
    ensures r.Some? ==> exists i :: 0 <= i < |members| && members[i] == (key, r.value)
  {
    if members == [] then None
    else if members[0].0 == key then
      assert members[0] == (key, members[0].1);
      Some(members[0].1)
    else
      var r := Lookup(members[1..], key);
      if r.Some? then
        var i :| 0 <= i < |members[1..]| && members[1..][i] == (key, r.value);
        assert members[i + 1] == (key, r.value);
        r
      else
        r
  }

  /** `d.get(key, {})` */
  function GetOrEmpty(members: seq<(string, Value)>, key: string): Value {
    Lookup(members, key).GetOr(Obj([]))
  }

  /** `_get_by_path` on a path already split at the dots. Each step looks the segment up
      with `{}` as default; a step on anything but a dict raises AttributeError (`None`). */
  function GetByPath(d: Value, path: seq<string>): Option<Value>
    decreases |path|
  {
    if path == [] then Some(d)
    else if !d.Obj? then None
    else GetByPath(GetOrEmpty(d.members, path[0]), path[1..])
  }

  /** `_get_by_path`, as the for loop it is. */
  method LookupPath(d: Value, path: seq<string>) returns (r: Option<Value>)
    ensures r == GetByPath(d, path)
  {
    var cur := d;
    for i := 0 to |path|
      invariant GetByPath(d, path) == GetByPath(cur, path[i..])
    {
      if !cur.Obj? {
        return None;
      }
      assert path[i..][1..] == path[i + 1..];
      cur := GetOrEmpty(cur.members, path[i]);
    }
    assert path[|path|..] == [];
    return Some(cur);
  }

  /** Below a missing key everything is `{}`: the lookup never fails and never yields a list. */
  lemma {:induction false} EmptyObjectAbsorbs(path: seq<string>)
    ensures GetByPath(Obj([]), path) == Some(Obj([]))
  {
    if path != [] {
      EmptyObjectAbsorbs(path[1..]);
    }
  }

  /** Every segment of the path names a member that is present. */
  predicate PathExists(d: Value, path: seq<string>)
    decreases |path|
  {
    path == [] || (d.Obj? && Lookup(d.members, path[0]).Some? &&
                   PathExists(Lookup(d.members, path[0]).value, path[1..]))
  }

  /** A list found by `_get_by_path` is an object in the document, reached through keys
      that are all present (a missing key would have produced `{}`). */
  lemma {:induction false} ListAtPathIsInDocument(d: Value, path: seq<string>)
    requires GetByPath(d, path).Some? && GetByPath(d, path).value.Arr?
    ensures PathExists(d, path)
  {
    if path != [] {
      if Lookup(d.members, path[0]).None? {
        EmptyObjectAbsorbs(path[1..]);
        assert false;
      }
      ListAtPathIsInDocument(GetOrEmpty(d.members, path[0]), path[1..]);
    }
  }

  /** Replaces the first member named `key` (the one `get` finds). */
  function Replace(members: seq<(string, Value)>, key: string, v: Value): (r: seq<(string, Value)>)
    requires Lookup(members, key).Some?
    ensures |r| == |members|
    ensures Lookup(r, key) == Some(v)
    ensures forall k :: k != key ==> Lookup(r, k) == Lookup(members, k)
    ensures forall i :: 0 <= i < |r| ==> r[i].0 == members[i].0
  {
    if members[0].0 == key then [(key, v)] + members[1..]
    else [members[0]] + Replace(members[1..], key, v)
  }

  /** The document after the value at `path` has been changed in place to `v` (the list
      `_sort_in_place` sorts is the one inside the document). */
  function SetByPath(d: Value, path: seq<string>, v: Value): Value
    requires PathExists(d, path)
    decreases |path|
  {
    if path == [] then v
    else
      var child := Lookup(d.members, path[0]).value;
      Obj(Replace(d.members, path[0], SetByPath(child, path[1..], v)))
  }

  /** Reading back the path that was written gives the value written. */
  lemma {:induction false} GetAfterSet(d: Value, path: seq<string>, v: Value)
    requires PathExists(d, path)
    ensures GetByPath(SetByPath(d, path, v), path) == Some(v)
  {
    if path != [] {
      var child := Lookup(d.members, path[0]).value;
      GetAfterSet(child, path[1..], v);
    }
  }

  /** `p` leaves `path` at some step: it agrees with `path` up to a segment where the two
      name different keys. */
  ghost predicate OffPath(p: seq<string>, path: seq<string>) {
    exists i :: 0 <= i < |path| && i < |p| && p[..i] == path[..i] && p[i] != path[i]
  }

  /** Writing at `path` changes nothing reached by a path that leaves it: the list is
      sorted where it is, and every other value of the document stays as it was. */
  lemma {:induction false} SetElsewhere(d: Value, path: seq<string>, v: Value, p: seq<string>, i: nat)
    requires PathExists(d, path)
    requires i < |path| && i < |p| && p[..i] == path[..i] && p[i] != path[i]
    ensures GetByPath(SetByPath(d, path, v), p) == GetByPath(d, p)
    decreases i
  {
    var child := Lookup(d.members, path[0]).value;
    var members' := Replace(d.members, path[0], SetByPath(child, path[1..], v));
    if i == 0 {
      assert GetOrEmpty(members', p[0]) == GetOrEmpty(d.members, p[0]);
    } else {
      assert p[0] == p[..i][0] == path[..i][0] == path[0];
      assert p[1..][..i - 1] == p[..i][1..] == path[..i][1..] == path[1..][..i - 1];
      SetElsewhere(child, path[1..], v, p[1..], i - 1);
      assert GetOrEmpty(members', p[0]) == SetByPath(child, path[1..], v);
    }
  }

  /** Every path that leaves the written one reads the same before and after. */
  lemma SetOffPath(d: Value, path: seq<string>, v: Value)
    requires PathExists(d, path)
    ensures forall p :: OffPath(p, path) ==> GetByPath(SetByPath(d, path, v), p) == GetByPath(d, p)
  {
    forall p | OffPath(p, path)
      ensures GetByPath(SetByPath(d, path, v), p) == GetByPath(d, p)
    {
      var i :| 0 <= i < |path| && i < |p| && p[..i] == path[..i] && p[i] != path[i];
      SetElsewhere(d, path, v, p, i);
    }
  }

  /** Python's `repr` of a string (ASCII approximation): single quotes unless the text
      holds a single quote and no double quote; backslash, the quote, \t \n \r and the
      other control characters are escaped. */
  function QuoteRepr(s: string): string {
    var q := if '\'' in s && '"' !in s then '"' else '\'';
    [q] + EscapeRepr(s, q) + [q]
  }

  function EscapeRepr(s: string, q: char): string {
    if s == [] then ""
    else
      var c := s[0];
      var e :=
        if c == '\\' then "\\\\"
        else if c == q then ['\\', q]
        else if c == '\t' then "\\t"
        else if c == '\n' then "\\n"
        else if c == '\r' then "\\r"
        else if c as int < 32 || c as int == 127 then "\\x" + [HexChar(c as int / 16), HexChar(c as int % 16)]
        else [c];
      e + EscapeRepr(s[1..], q)
  }

  function HexChar(d: nat): char
    requires d < 16
  {
    if d < 10 then DigitChar(d) else ('a' as int + d - 10) as char
  }

  /** Python's `repr(v)` of a loaded JSON value. */
  function PyRepr(v: Value): string
    decreases v
  {
    match v
    case Null => "None"
    case Bool(b) => if b then "True" else "False"
    case Num(n) => IntToString(n)
    case Str(s) => QuoteRepr(s)
    case Arr(items) =>
      "[" + JoinWith(", ", seq(|items|, i requires 0 <= i < |items| => PyRepr(items[i]))) + "]"
    case Obj(members) =>
      "{" + JoinWith(", ", seq(|members|, i requires 0 <= i < |members| =>
                                  QuoteRepr(members[i].0) + ": " + PyRepr(members[i].1))) + "}"
  }

  /** Python's `str(v)`: a string is its own text, anything else is its `repr`. */
  function PyStr(v: Value): string {
    if v.Str? then v.s else PyRepr(v)
  }
}
