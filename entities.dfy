/** Entity classes and instances: how a class body's `Column` attributes
    become the class's column list, and how an instance holds one value
    per column. */
module Entities {
  import opened Numerals

  /** The Python values a column or the `id` attribute holds here. */
  datatype PyValue = PyNone | PyInt(i: int) | PyStr(s: string)

  /** Python truthiness: `None`, `0` and `""` are false. */
  predicate Truthy(v: PyValue)
    ensures Truthy(v) <==> v !in {PyNone, PyInt(0), PyStr("")}
  {
    match v
    case PyNone => false
    case PyInt(i) => i != 0
    case PyStr(s) => s != ""
  }

  /** Python's `str(v)`; it is also the string the Redis client stores for `v`. */
  function Str(v: PyValue): (s: string)
    ensures v.PyInt? ==> s != "" && (v.i >= 0 ==> IsNumeral(s))
    ensures v.PyStr? ==> s == v.s
  {
    match v
    case PyNone => "None"
    case PyInt(i) => IntToString(i)
    case PyStr(s) => s
  }

  /** An instance's attribute dictionary (its `__dict__`). */
  type Attrs = map<string, PyValue>

  /** Exceptions the modelled code can raise. */
  datatype PyError = AttributeError | TypeError

  /** What a Python call ends with: a returned value or a raised exception. */
  datatype Outcome<T> = Returned(value: T) | Raised(error: PyError)

  /** One entry of a class body's namespace, in declaration order:
      its name and whether its value is a `Column` instance. */
  datatype ClassAttr = ClassAttr(name: string, isColumn: bool)

  predicate StartsWithUnderscore(name: string) {
    |name| > 0 && name[0] == '_'
  }

  predicate IsColumnAttr(a: ClassAttr) {
    !StartsWithUnderscore(a.name) && a.isColumn
  }

  /** The column names of a class namespace: the non-underscore attributes
      holding a `Column`, in declaration order. */
  function Columns(namespace: seq<ClassAttr>): (cols: seq<string>)
    ensures |cols| <= |namespace|
    ensures forall c | c in cols :: !StartsWithUnderscore(c)
  {
    if namespace == [] then []
    else
      var last := namespace[|namespace| - 1];
      Columns(namespace[..|namespace| - 1]) + (if IsColumnAttr(last) then [last.name] else [])
  }

  /** A name is a column exactly when some attribute of that name is a
      non-underscore `Column`. */
  lemma {:induction false} ColumnsMembership(namespace: seq<ClassAttr>, name: string)
    ensures name in Columns(namespace) <==>
      exists i :: 0 <= i < |namespace| && namespace[i].name == name && IsColumnAttr(namespace[i])
    decreases |namespace|
  {
    if namespace != [] {
      var init := namespace[..|namespace| - 1];
      ColumnsMembership(init, name);
      if exists i :: 0 <= i < |init| && init[i].name == name && IsColumnAttr(init[i]) {
        var i :| 0 <= i < |init| && init[i].name == name && IsColumnAttr(init[i]);
        assert namespace[i] == init[i];
      }
      if exists i :: 0 <= i < |namespace| && namespace[i].name == name && IsColumnAttr(namespace[i]) {
        var i :| 0 <= i < |namespace| && namespace[i].name == name && IsColumnAttr(namespace[i]);
        if i < |init| {
          assert init[i] == namespace[i];
        }
      }
    }
  }

  /** Column order follows declaration order: the columns of a namespace are
      the columns of its first part followed by those of the rest. */
  lemma {:induction false} ColumnsAppend(first: seq<ClassAttr>, rest: seq<ClassAttr>)
    ensures Columns(first + rest) == Columns(first) + Columns(rest)
    decreases |rest|
  {
    if rest != [] {
      var restInit := rest[..|rest| - 1];
      assert (first + rest)[..|first + rest| - 1] == first + restInit;
      ColumnsAppend(first, restInit);
    } else {
      assert first + rest == first;
    }
  }

  /** An entity class: its `__name__` and its `_columns` list (what
      `get_columns` returns). */
  datatype EntityType = EntityType(name: string, columns: seq<string>)

  /** Every class built by `DeclareClass` has this: no column name starts
      with an underscore, so none is the tombstone field. */
  predicate WellFormed(kind: EntityType) {
    forall c | c in kind.columns :: !StartsWithUnderscore(c)
  }

  /** The metaclass's `__new__`: walks the namespace and appends each
      column's name to `_columns`. */
  method DeclareClass(name: string, namespace: seq<ClassAttr>) returns (kind: EntityType)
    ensures kind.name == name && kind.columns == Columns(namespace)
    ensures WellFormed(kind)
  {
    var columns := [];
    for i := 0 to |namespace|
      invariant columns == Columns(namespace[..i])
    {
      var attr := namespace[i];
      assert namespace[..i + 1][..i] == namespace[..i];
      if StartsWithUnderscore(attr.name) {
        continue;
      }
      if attr.isColumn {
        columns := columns + [attr.name];
      }
    }
    assert namespace[..|namespace|] == namespace;
    kind := EntityType(name, columns);
  }

  /** The attributes `__init__` gives a new instance: each column set to its
      keyword argument, or `None` when none is given. Keyword arguments that
      name no column are ignored; a keyword argument `self` never gets here,
      since Python refuses it before `__init__` runs (see `Construct`). */
  function InitAttrs(columns: seq<string>, kwargs: Attrs): (attrs: Attrs)
    requires "self" !in kwargs
    ensures forall c :: c in attrs <==> c in columns
    ensures forall c | c in attrs :: attrs[c] == if c in kwargs then kwargs[c] else PyNone
    decreases |columns|
  {
    if columns == [] then map[]
    else
      var c := columns[|columns| - 1];
      InitAttrs(columns[..|columns| - 1], kwargs)[c := if c in kwargs then kwargs[c] else PyNone]
  }

  /** One more column of `__init__`'s loop. */
  lemma InitAttrsStep(columns: seq<string>, kwargs: Attrs, i: nat)
    requires "self" !in kwargs && i < |columns|
    ensures var c := columns[i];
      InitAttrs(columns[..i + 1], kwargs) == InitAttrs(columns[..i], kwargs)[c := if c in kwargs then kwargs[c] else PyNone]
  {
    assert columns[..i + 1][..i] == columns[..i];
  }

  /** An instance of an entity class. Its attributes change in place
      (`save` assigns `id`), so it is an object. */
  class Instance {
    const kind: EntityType
    var attrs: Attrs

    /** Every column has an attribute, as `__init__` leaves it. */
    ghost predicate Valid()
      reads this
    {
      forall c | c in kind.columns :: c in attrs
    }

    /** `PersistentData.__init__(**kwargs)`, once Python has bound the
        keyword arguments; `Construct` is the call that may fail. */
    constructor (kind: EntityType, kwargs: Attrs)
      requires "self" !in kwargs
      ensures this.kind == kind && attrs == InitAttrs(kind.columns, kwargs)
      ensures Valid()
    {
      this.kind := kind;
      var a := map[];
      for i := 0 to |kind.columns|
        invariant a == InitAttrs(kind.columns[..i], kwargs)
      {
        var c := kind.columns[i];
        InitAttrsStep(kind.columns, kwargs, i);
        a := a[c := if c in kwargs then kwargs[c] else PyNone];
      }
      assert kind.columns[..|kind.columns|] == kind.columns;
      attrs := a;
    }

    /** Attribute assignment `obj.name = v`. */
    method SetAttribute(name: string, v: PyValue)
      modifies this
      ensures attrs == old(attrs)[name := v]
      ensures old(Valid()) ==> Valid()
    {
      attrs := attrs[name := v];
    }
  }

  /** Calling an entity class, `Kind(**kwargs)`: a keyword argument named
      `self` clashes with `__init__`'s own first parameter and raises
      TypeError; any other keywords reach `__init__`. */
  method Construct(kind: EntityType, kwargs: Attrs) returns (result: Outcome<Instance>)
    ensures result.Raised? <==> "self" in kwargs
    ensures result.Raised? ==> result.error == TypeError
    ensures result.Returned? ==>
      fresh(result.value) && result.value.kind == kind &&
      result.value.attrs == InitAttrs(kind.columns, kwargs) && result.value.Valid()
  {
    if "self" in kwargs {
      return Raised(TypeError);
    }
    var obj := new Instance(kind, kwargs);
    result := Returned(obj);
  }
}
