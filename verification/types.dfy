/**
 Variable types and values: the type registry (`Variable[...]` lookup, registration
 by class name and literal prefix, derived class and default variable names), the
 built-in String, Integer and List types with their attribute tables, value
 rendering and the autoboxing of plain accessor results.
 */
module Types {
  import opened Text
  import opened Results
  import opened Dicts
  import opened Tasks

  /** How an attribute is computed. */
  datatype Accessor =
    | Custom(id: string, isTask: bool)  // a method of the type, plain or decorated with `@task`
    | ItemAt(index: nat)                // `List.get_item` bound to a key
    | Count                             // `List.count`

  /** What `Variable[...]` accepts: a type object, a one-element list `[T]`, or a name. */
  datatype TypeRef = TypeObj(t: VarType) | ListRef(item: TypeRef) | Named(name: string)

  datatype Attribute = Attribute(returnType: TypeRef, accessor: Accessor)

  /** A variable type: a registered Variable subclass, or a list of some item type. */
  datatype VarType =
    | Class(name: string, className: string, defaultVarName: string, prefix: Option<string>,
            attributes: Dict<string, Attribute>, linkLoader: bool)
    | ListOf(item: VarType)

  /** A Variable subclass other than `List`: every value of a list type is a `List` instance. */
  type ClassType = t: VarType | t.Class? witness Class("", "", "", None, Dict([], map[]), false)

  /** `class_name`: a list's is its item's in brackets. */
  function ClassName(t: VarType): string
  {
    match t
    case Class(_, cn, _, _, _, _) => cn
    case ListOf(item) => "[" + ClassName(item) + "]"
  }

  /** `default_var_name`: a list's is its item's with an `s` appended. */
  function DefaultVarName(t: VarType): string
  {
    match t
    case Class(_, _, dv, _, _, _) => dv
    case ListOf(item) => DefaultVarName(item) + "s"
  }

  function UpperCount(s: string): nat
  {
    if |s| == 0 then 0 else (if IsUpper(s[0]) then 1 else 0) + UpperCount(s[1..])
  }

  /** `re.sub(r'([A-Z])', r'_\1', name).lower()`. */
  function SnakeName(name: string): (r: string)
    ensures |r| == |name| + UpperCount(name)
    ensures forall i :: 0 <= i < |r| ==> !IsUpper(r[i])
    decreases |name|
  {
    if |name| == 0 then ""
    else (if IsUpper(name[0]) then ['_', LowerChar(name[0])] else [LowerChar(name[0])]) + SnakeName(name[1..])
  }

  /** Snake-casing works character by character, so it distributes over concatenation. */
  lemma {:induction false} SnakeNameAppend(a: string, b: string)
    ensures SnakeName(a + b) == SnakeName(a) + SnakeName(b)
    decreases |a|
  {
    if |a| == 0 {
      assert a + b == b;
    } else {
      assert (a + b)[0] == a[0];
      assert (a + b)[1..] == a[1..] + b;
      SnakeNameAppend(a[1..], b);
    }
  }

  /** A name without upper-case letters is left as it is. */
  lemma {:induction false} SnakeNameNoUpper(name: string)
    requires forall i :: 0 <= i < |name| ==> !IsUpper(name[i])
    ensures SnakeName(name) == name
    decreases |name|
  {
    if |name| > 0 {
      SnakeNameNoUpper(name[1..]);
      assert name == [name[0]] + name[1..];
    }
  }

  /**
   How a Variable subclass is declared: its name, its literal prefix (its own or an
   inherited one, as `hasattr` sees it), optional own naming, its attributes, and whether
   its `load_task` is `Link.load_task` (`Link` itself, or a subclass that inherits it).
   */
  datatype VariableDecl = VariableDecl(
    name: string,
    prefix: Option<string>,
    naming: Option<(string, string)>,   // an explicit (class_name, default_var_name)
    attributes: Dict<string, Attribute>,
    linkLoader: bool)

  /** The class the metaclass builds: names default to the class name and its snake-cased form. */
  function DeclaredType(d: VariableDecl): (t: VarType)
    ensures t.Class? && t.name == d.name && t.prefix == d.prefix && t.attributes == d.attributes
    ensures t.linkLoader == d.linkLoader
    ensures d.naming.None? ==> ClassName(t) == d.name && DefaultVarName(t) == SnakeName(d.name)
  {
    match d.naming
    case None => Class(d.name, d.name, SnakeName(d.name), d.prefix, d.attributes, d.linkLoader)
    case Some(n) => Class(d.name, n.0, n.1, d.prefix, d.attributes, d.linkLoader)
  }

  const StringDecl := VariableDecl("String", None, None, Dict([], map[]), false)
  const IntegerDecl := VariableDecl("Integer", None, None, Dict([], map[]), false)
  const StringType := DeclaredType(StringDecl)
  const IntegerType := DeclaredType(IntegerDecl)

  lemma SnakeCapitalised(c: char, rest: string)
    requires IsUpper(c) && forall i :: 0 <= i < |rest| ==> !IsUpper(rest[i])
    ensures SnakeName([c] + rest) == ['_', LowerChar(c)] + rest
  {
    assert ([c] + rest)[1..] == rest;
    SnakeNameNoUpper(rest);
  }

  /** The built-in integer type is named `Integer` and its default variable name is `_integer`. */
  lemma IntegerNames()
    ensures ClassName(IntegerType) == "Integer"
    ensures DefaultVarName(IntegerType) == "_integer"
  {
    assert "Integer" == ['I'] + "nteger";
    SnakeCapitalised('I', "nteger");
  }

  /** The built-in string type is named `String` and its default variable name is `_string`. */
  lemma StringNames()
    ensures ClassName(StringType) == "String"
    ensures DefaultVarName(StringType) == "_string"
  {
    assert "String" == ['S'] + "tring";
    SnakeCapitalised('S', "tring");
  }

  /** Registries kept by the Variable metaclass. */
  datatype Registry = Registry(byClassName: Dict<string, VarType>, byPrefix: Dict<string, VarType>)

  /** Class creation: register by class name, and by prefix when there is one. */
  function Register(reg: Registry, d: VariableDecl): (r: Registry)
    ensures r.byClassName.Has(d.name) && r.byClassName.entries[d.name] == DeclaredType(d)
    ensures forall n :: n != d.name ==> (r.byClassName.Has(n) <==> reg.byClassName.Has(n))
    ensures d.prefix.Some? ==> r.byPrefix.Has(d.prefix.value) && r.byPrefix.entries[d.prefix.value] == DeclaredType(d)
    ensures d.prefix.None? ==> r.byPrefix == reg.byPrefix
    ensures reg.byClassName.Valid() && reg.byPrefix.Valid() ==> r.byClassName.Valid() && r.byPrefix.Valid()
  {
    var t := DeclaredType(d);
    var byName := reg.byClassName.Put(d.name, t);
    match d.prefix
    case None => Registry(byName, reg.byPrefix)
    case Some(p) => Registry(byName, reg.byPrefix.Put(p, t))
  }

  function RefSize(r: TypeRef): nat
  {
    match r
    case TypeObj(_) => 0
    case ListRef(item) => RefSize(item) + 1
    case Named(n) => |n|
  }

  /** The name between the brackets of `"[T]"` (Python's `name[1:-1]`). */
  function Inner(name: string): (r: string)
    requires |name| >= 1
    ensures |r| < |name|
  {
    if |name| >= 2 then name[1..|name| - 1] else ""
  }

  /** `Variable[ref]`. */
  function Lookup(reg: Registry, ref: TypeRef): Result<VarType>
    decreases RefSize(ref)
  {
    match ref
    case TypeObj(t) => Ok(t)
    case ListRef(item) =>
      var t :- Lookup(reg, item);
      Ok(ListOf(t))
    case Named(n) =>
      if StartsWith(n, "[") then
        var t :- Lookup(reg, Named(Inner(n)));
        Ok(ListOf(t))
      else if reg.byClassName.Has(n) then Ok(reg.byClassName.entries[n])
      else Err(KeyError(n))
  }

  /** A type object comes back unchanged. */
  lemma LookupObject(reg: Registry, t: VarType)
    ensures Lookup(reg, TypeObj(t)) == Ok(t)
  {
  }

  /** `[T]` and `"[T]"` both denote the list of whatever `T` denotes, failing when `T` fails. */
  lemma LookupList(reg: Registry, item: string)
    ensures Lookup(reg, ListRef(Named(item))) == Lookup(reg, Named("[" + item + "]"))
    ensures Lookup(reg, Named("[" + item + "]")).Ok? <==> Lookup(reg, Named(item)).Ok?
    ensures Lookup(reg, Named(item)).Ok? ==>
      Lookup(reg, Named("[" + item + "]")) == Ok(ListOf(Lookup(reg, Named(item)).value))
  {
    var n := "[" + item + "]";
    assert StartsWith(n, "[");
    assert Inner(n) == item;
  }

  /** A plain name resolves exactly when it is registered, to the registered type. */
  lemma LookupNamed(reg: Registry, name: string)
    requires !StartsWith(name, "[")
    ensures Lookup(reg, Named(name)).Ok? <==> reg.byClassName.Has(name)
    ensures reg.byClassName.Has(name) ==> Lookup(reg, Named(name)).value == reg.byClassName.entries[name]
    ensures !reg.byClassName.Has(name) ==> Lookup(reg, Named(name)) == Err(KeyError(name))
  {
  }

  /**
   Looking up `"[n]"` for a class that keeps its own name gives a list whose class
   name is `"[n]"` and whose default variable name is the item's with an `s`.
   */
  lemma ListClassName(reg: Registry, n: string)
    requires !StartsWith(n, "[") && reg.byClassName.Has(n)
    requires ClassName(reg.byClassName.entries[n]) == n
    ensures Lookup(reg, Named("[" + n + "]")).Ok?
    ensures ClassName(Lookup(reg, Named("[" + n + "]")).value) == "[" + n + "]"
    ensures DefaultVarName(Lookup(reg, Named("[" + n + "]")).value) == DefaultVarName(reg.byClassName.entries[n]) + "s"
  {
    LookupList(reg, n);
  }

  // ---------------------------------------------------------------- attributes

  /** A list attribute key denotes an index when it is a run of digits. */
  predicate IsIndexKey(key: string)
  {
    |key| > 0 && AllDigits(key)
  }

  /**
   The list attribute table as written: an index key gives the item type, `count`
   declares `String` even though it yields a number.
   */
  function ListAttributeAsWritten(item: VarType, key: string): (r: Result<Attribute>)
    ensures IsIndexKey(key) ==> r == Ok(Attribute(TypeObj(item), ItemAt(DigitsValue(key))))
    ensures !IsIndexKey(key) && key == "count" ==> r == Ok(Attribute(TypeObj(StringType), Count))
    ensures !IsIndexKey(key) && key != "count" ==> r == Err(KeyError(key))
  {
    if IsIndexKey(key) then Ok(Attribute(TypeObj(item), ItemAt(DigitsValue(key))))
    else if key == "count" then Ok(Attribute(TypeObj(StringType), Count))
    else Err(KeyError(key))
  }

  /** The list attribute table with `count` declaring the type of what it yields, `Integer`. */
  function ListAttribute(item: VarType, key: string): (r: Result<Attribute>)
    ensures IsIndexKey(key) ==> r == Ok(Attribute(TypeObj(item), ItemAt(DigitsValue(key))))
    ensures !IsIndexKey(key) && key == "count" ==> r == Ok(Attribute(TypeObj(IntegerType), Count))
    ensures !IsIndexKey(key) && key != "count" ==> r == Err(KeyError(key))
  {
    if IsIndexKey(key) then Ok(Attribute(TypeObj(item), ItemAt(DigitsValue(key))))
    else if key == "count" then Ok(Attribute(TypeObj(IntegerType), Count))
    else Err(KeyError(key))
  }

  /** `type.attributes[key]`. */
  function AttributeOf(t: VarType, key: string): (r: Result<Attribute>)
    ensures t.Class? ==> (r.Ok? <==> t.attributes.Has(key))
    ensures t.Class? && t.attributes.Has(key) ==> r.value == t.attributes.entries[key]
  {
    match t
    case Class(_, _, _, _, attrs, _) => if attrs.Has(key) then Ok(attrs.entries[key]) else Err(KeyError(key))
    case ListOf(item) => ListAttribute(item, key)
  }

  // ---------------------------------------------------------------- values

  /** An Integer holds the digit string of a literal, or a number produced by code. */
  datatype IntPayload = Digits(digits: string) | Number(n: int)

  /** A variable instance; `name` is the assigned variable name, empty while unassigned. */
  datatype Value =
    | StringVar(text: string, name: string)
    | IntegerVar(payload: IntPayload, name: string)
    | ListVar(itemType: VarType, items: seq<Value>, name: string)
    | OtherVar(vtype: ClassType, shown: seq<Token>, name: string)

  /** `type()`: a list is its own type. */
  function TypeOf(v: Value): VarType
  {
    match v
    case StringVar(_, _) => StringType
    case IntegerVar(_, _) => IntegerType
    case ListVar(item, _, _) => ListOf(item)
    case OtherVar(t, _, _) => t
  }

  /** `type(v).__name__`: the Python class a value is an instance of. */
  function PyClassName(v: Value): string
  {
    match v
    case StringVar(_, _) => "String"
    case IntegerVar(_, _) => "Integer"
    case ListVar(_, _, _) => "List"
    case OtherVar(t, _, _) => t.name
  }

  /** The `var_name` property: the assigned name when set, else the type's default name. */
  function VarName(v: Value): (n: string)
    ensures v.name != "" ==> n == v.name
    ensures v.name == "" ==> n == DefaultVarName(TypeOf(v))
  {
    if v.name != "" then v.name else DefaultVarName(TypeOf(v))
  }

  function WithName(v: Value, n: string): (r: Value)
    ensures r.name == n && TypeOf(r) == TypeOf(v)
  {
    v.(name := n)
  }

  /** Reading the name back after setting it gives the name set, unless it is empty. */
  lemma VarNameAfterAssign(v: Value, n: string)
    ensures n != "" ==> VarName(WithName(v, n)) == n
    ensures n == "" ==> VarName(WithName(v, n)) == DefaultVarName(TypeOf(v))
  {
  }

  /** `String._load` and `Integer._load`: wrap the argument unchanged. */
  function LoadBuiltin(t: VarType, argument: string): (r: Option<Value>)
    ensures t == StringType ==> r == Some(StringVar(argument, ""))
    ensures t == IntegerType ==> r == Some(IntegerVar(Digits(argument), ""))
    ensures t != StringType && t != IntegerType ==> r.None?
  {
    if t == StringType then Some(StringVar(argument, ""))
    else if t == IntegerType then Some(IntegerVar(Digits(argument), ""))
    else None
  }

  function PayloadText(p: IntPayload): string
  {
    match p
    case Digits(d) => d
    case Number(n) => IntString(n)
  }

  /** `'{:>02}'.format(i)`: at least two digits, zero-filled. */
  function Pad2(i: nat): (s: string)
    ensures |s| >= 2 && AllDigits(s)
  {
    if i < 10 then "0" + NatString(i) else NatString(i)
  }

  /** The padded index reads back as the index. */
  lemma Pad2Value(i: nat)
    ensures DigitsValue(Pad2(i)) == i
  {
    NatStringValue(i);
    if i < 10 {
      var s := "0" + NatString(i);
      assert s[..|s| - 1] == "0";
      assert DigitsValue("0") == DigitsValue("") * 10 + 0;
    }
  }

  function ItemHeader(i: nat): Token
  {
    Plain(" [" + Pad2(i) + "] ")
  }

  /** `tokens()` of a value. */
  function ValueTokens(v: Value): seq<Token>
    decreases v, 1
  {
    match v
    case StringVar(s, _) => [Plain(s)]
    case IntegerVar(p, _) => [Plain(PayloadText(p))]
    case ListVar(_, items, _) => if |items| == 0 then [] else ListTokens(v, 0)
    case OtherVar(_, shown, _) => shown
  }

  /** List tokens from item `i` on: header, item tokens, newline, per item. */
  function ListTokens(v: Value, i: nat): seq<Token>
    requires v.ListVar? && i < |v.items|
    decreases v, 0, |v.items| - i
  {
    var mine := [ItemHeader(i)] + ValueTokens(v.items[i]) + [Plain("\n")];
    if i + 1 == |v.items| then mine else mine + ListTokens(v, i + 1)
  }

  /** Number of tokens items `i..j` of a list render to. */
  function ListWidth(v: Value, i: nat, j: nat): nat
    requires v.ListVar? && i <= j <= |v.items|
    decreases j - i
  {
    if i == j then 0 else |ValueTokens(v.items[i])| + 2 + ListWidth(v, i + 1, j)
  }

  lemma SliceAfter<T>(a: seq<T>, b: seq<T>, x: nat, y: nat)
    requires x <= y <= |b|
    ensures (a + b)[|a| + x..|a| + y] == b[x..y]
  {
  }

  lemma {:induction false} ListWidthStep(v: Value, i: nat, j: nat)
    requires v.ListVar? && i <= j < |v.items|
    ensures ListWidth(v, i, j + 1) == ListWidth(v, i, j) + |ValueTokens(v.items[j])| + 2
    decreases j - i
  {
    if i < j {
      ListWidthStep(v, i + 1, j);
    }
  }

  function ItemTokens(v: Value, j: nat): seq<Token>
    requires v.ListVar? && j < |v.items|
  {
    [ItemHeader(j)] + ValueTokens(v.items[j]) + [Plain("\n")]
  }

  lemma ListTokensCons(v: Value, i: nat)
    requires v.ListVar? && i < |v.items|
    ensures i + 1 == |v.items| ==> ListTokens(v, i) == ItemTokens(v, i)
    ensures i + 1 < |v.items| ==> ListTokens(v, i) == ItemTokens(v, i) + ListTokens(v, i + 1)
  {
  }

  /** The rendering from item `i` on is as wide as those items together. */
  lemma {:induction false} ListTokensWidth(v: Value, i: nat)
    requires v.ListVar? && i < |v.items|
    ensures |ListTokens(v, i)| == ListWidth(v, i, |v.items|)
    decreases |v.items| - i
  {
    ListTokensCons(v, i);
    if i + 1 < |v.items| {
      ListTokensWidth(v, i + 1);
    } else {
      assert ListWidth(v, i + 1, |v.items|) == 0;
    }
  }

  /**
   Item `j` of a list renders between offsets `ListWidth(v, i, j)` and
   `ListWidth(v, i, j + 1)`: its padded-index header, exactly its own tokens, then a
   newline token; the whole rendering is as wide as all items together.
   */
  lemma {:induction false} ListItemShape(v: Value, i: nat, j: nat)
    requires v.ListVar? && i <= j < |v.items|
    ensures |ListTokens(v, i)| == ListWidth(v, i, |v.items|)
    ensures ListWidth(v, i, j) <= ListWidth(v, i, j + 1) <= |ListTokens(v, i)|
    ensures ListTokens(v, i)[ListWidth(v, i, j)..ListWidth(v, i, j + 1)] == ItemTokens(v, j)
    decreases |v.items| - i
  {
    ListWidthStep(v, i, j);
    ListTokensWidth(v, i);
    if i == j {
      ListFirstItem(v, i);
    } else {
      ListItemShape(v, i + 1, j);
      ListLaterItem(v, i, j);
    }
  }

  /** The first item rendered from `i` on opens the rendering. */
  lemma ListFirstItem(v: Value, i: nat)
    requires v.ListVar? && i < |v.items|
    ensures ListWidth(v, i, i + 1) <= |ListTokens(v, i)|
    ensures ListTokens(v, i)[0..ListWidth(v, i, i + 1)] == ItemTokens(v, i)
  {
    ListTokensCons(v, i);
    assert ListWidth(v, i + 1, i + 1) == 0;
  }

  /** A later item sits in the rendering from `i` where it sits in the one from `i + 1`, shifted by item `i`. */
  lemma ListLaterItem(v: Value, i: nat, j: nat)
    requires v.ListVar? && i < j < |v.items|
    requires ListWidth(v, i + 1, j) <= ListWidth(v, i + 1, j + 1) <= |ListTokens(v, i + 1)|
    requires ListTokens(v, i + 1)[ListWidth(v, i + 1, j)..ListWidth(v, i + 1, j + 1)] == ItemTokens(v, j)
    ensures ListWidth(v, i, j + 1) <= |ListTokens(v, i)|
    ensures ListTokens(v, i)[ListWidth(v, i, j)..ListWidth(v, i, j + 1)] == ItemTokens(v, j)
  {
    ListTokensCons(v, i);
    var mine := ItemTokens(v, i);
    var rest := ListTokens(v, i + 1);
    assert ListTokens(v, i) == mine + rest;
    assert ListWidth(v, i, j) == |mine| + ListWidth(v, i + 1, j);
    assert ListWidth(v, i, j + 1) == |mine| + ListWidth(v, i + 1, j + 1);
    SliceAfter(mine, rest, ListWidth(v, i + 1, j), ListWidth(v, i + 1, j + 1));
  }

  // ---------------------------------------------------------------- autoboxing

  /** A plain Python result of an accessor. */
  datatype PyValue = PyStr(s: string) | PyInt(i: int) | PyVar(v: Value) | PyNone

  /** `type(x).__name__` for a plain result or a variable. */
  function PyTypeName(x: PyValue): string
  {
    match x
    case PyStr(_) => "str"
    case PyInt(_) => "int"
    case PyVar(v) => PyClassName(v)
    case PyNone => "NoneType"
  }

  /** `_autobox`: `str` becomes a String, `int` an Integer, anything else passes through. */
  function Autobox(x: PyValue): (r: PyValue)
    ensures !r.PyStr? && !r.PyInt?
    ensures x.PyStr? ==> r == PyVar(StringVar(x.s, ""))
    ensures x.PyInt? ==> r == PyVar(IntegerVar(Number(x.i), ""))
    ensures x.PyVar? || x.PyNone? ==> r == x
  {
    match x
    case PyStr(s) => PyVar(StringVar(s, ""))
    case PyInt(i) => PyVar(IntegerVar(Number(i), ""))
    case _ => x
  }

  /** Boxing twice is boxing once, and a boxed string or integer renders as `str()` of the original. */
  lemma AutoboxFaithful(x: PyValue)
    ensures Autobox(Autobox(x)) == Autobox(x)
    ensures x.PyStr? ==> ValueTokens(Autobox(x).v) == [Plain(x.s)]
    ensures x.PyInt? ==> ValueTokens(Autobox(x).v) == [Plain(IntString(x.i))]
    ensures x.PyStr? ==> TypeOf(Autobox(x).v) == StringType
    ensures x.PyInt? ==> TypeOf(Autobox(x).v) == IntegerType
  {
  }

  /** A class registered under a plain name is found by it and offers exactly the attributes it declared. */
  lemma DeclaredAttributes(reg: Registry, d: VariableDecl, key: string)
    requires !StartsWith(d.name, "[")
    ensures Lookup(Register(reg, d), Named(d.name)) == Ok(DeclaredType(d))
    ensures AttributeOf(DeclaredType(d), key) ==
      (if d.attributes.Has(key) then Ok(d.attributes.entries[key]) else Err(KeyError(key)))
  {
    LookupNamed(Register(reg, d), d.name);
  }

  /** A built-in literal loads to an unnamed value of its type that renders as the text it was loaded from. */
  lemma LoadedLiteralShows(t: VarType, argument: string)
    requires t == StringType || t == IntegerType
    ensures LoadBuiltin(t, argument).Some?
    ensures ValueTokens(LoadBuiltin(t, argument).value) == [Plain(argument)]
    ensures TypeOf(LoadBuiltin(t, argument).value) == t
    ensures VarName(LoadBuiltin(t, argument).value) == DefaultVarName(t)
  {
  }
}
