/** The type/member construction builder of the Cecil back end,
    src/XamlX.Cecil/CecilTypeBuilder.cs: each `Define*` call works out an attribute flag set
    from its booleans and appends one definition to the type under construction and one
    wrapper to the builder's own member lists. */
module CecilTypeBuilder {
  import opened Metadata

  // ---------------------------------------------------------------------------------------
  // Attribute flag sets
  // ---------------------------------------------------------------------------------------

  /** The `FieldAttributes` this builder sets. */
  datatype FieldAttribute = FieldPublic | FieldStatic

  /** The `MethodAttributes` this builder sets. */
  datatype MethodAttribute = Public | Static | Virtual | HideBySig | NewSlot | SpecialName | RTSpecialName

  /** The `TypeAttributes` of a nested type this builder creates. */
  datatype TypeAttribute = NestedPublic | NestedPrivate

  /** Lines 21-25: `Public` when public, `Static` when static, nothing else. */
  function FieldAttributesFor(isPublic: bool, isStatic: bool): (a: set<FieldAttribute>)
    ensures FieldPublic in a <==> isPublic
    ensures FieldStatic in a <==> isStatic
  {
    (if isPublic then {FieldPublic} else {}) + (if isStatic then {FieldStatic} else {})
  }

  /** Lines 43-50: `Public` when public, `Static` when static, `NewSlot | Virtual` when the
      method implements an interface, nothing else. */
  function MethodAttributesFor(isPublic: bool, isStatic: bool, isInterfaceImpl: bool): (a: set<MethodAttribute>)
    ensures Public in a <==> isPublic
    ensures Static in a <==> isStatic
    ensures NewSlot in a <==> isInterfaceImpl
    ensures Virtual in a <==> isInterfaceImpl
    ensures HideBySig !in a && SpecialName !in a && RTSpecialName !in a
  {
    (if isPublic then {Public} else {}) + (if isStatic then {Static} else {})
      + (if isInterfaceImpl then {NewSlot, Virtual} else {})
  }

  /** Lines 81-86: always `HideBySig | SpecialName | RTSpecialName`; a static constructor
      adds `Static`, an instance one `Public`; never `Virtual` or `NewSlot`. */
  function ConstructorAttributesFor(isStatic: bool): (a: set<MethodAttribute>)
    ensures HideBySig in a && SpecialName in a && RTSpecialName in a
    ensures Static in a <==> isStatic
    ensures Public in a <==> !isStatic
    ensures Virtual !in a && NewSlot !in a
  {
    {HideBySig, SpecialName, RTSpecialName} + if isStatic then {Static} else {Public}
  }

  /** The `MethodAttributes` bits of a flag set, with ECMA-335's values: `Public` is 6
      in the three-bit access field, the others are single bits. */
  function MethodBits(a: set<MethodAttribute>): bv16 {
    (if Public in a then 0x0006 else 0)
    | (if Static in a then 0x0010 else 0)
    | (if Virtual in a then 0x0040 else 0)
    | (if HideBySig in a then 0x0080 else 0)
    | (if NewSlot in a then 0x0100 else 0)
    | (if SpecialName in a then 0x0800 else 0)
    | (if RTSpecialName in a then 0x1000 else 0)
  }

  /** Whether the bits `b` carry flag `x`: the access field equal to 6 for `Public`, the
      flag's own bit for the others. */
  predicate HasFlag(b: bv16, x: MethodAttribute) {
    match x
    case Public => b & 0x0007 == 0x0006
    case Static => b & 0x0010 != 0
    case Virtual => b & 0x0040 != 0
    case HideBySig => b & 0x0080 != 0
    case NewSlot => b & 0x0100 != 0
    case SpecialName => b & 0x0800 != 0
    case RTSpecialName => b & 0x1000 != 0
  }

  const AllMethodAttributes: set<MethodAttribute> :=
    {Public, Static, Virtual, HideBySig, NewSlot, SpecialName, RTSpecialName}

  /** Reading the flags back from the bits. */
  function MethodFlags(b: bv16): set<MethodAttribute> {
    set x | x in AllMethodAttributes && HasFlag(b, x)
  }

  /** Each flag sets its own bits in `MethodBits`, and no other flag touches them. */
  lemma MethodBitsOfFlags(a: set<MethodAttribute>)
    ensures var b := MethodBits(a);
      && ((b & 0x0007 == 0x0006) <==> Public in a)
      && ((b & 0x0010 != 0) <==> Static in a)
      && ((b & 0x0040 != 0) <==> Virtual in a)
      && ((b & 0x0080 != 0) <==> HideBySig in a)
      && ((b & 0x0100 != 0) <==> NewSlot in a)
      && ((b & 0x0800 != 0) <==> SpecialName in a)
      && ((b & 0x1000 != 0) <==> RTSpecialName in a)
  {
  }

  /** The encoding loses nothing: every flag set is read back from its bits. */
  lemma MethodBitsRoundTrip(a: set<MethodAttribute>)
    ensures MethodFlags(MethodBits(a)) == a
  {
    MethodBitsOfFlags(a);
    var b := MethodBits(a);
    forall x ensures x in MethodFlags(b) <==> x in a {
      assert x in AllMethodAttributes by {
        match x
        case Public =>
        case Static =>
        case Virtual =>
        case HideBySig =>
        case NewSlot =>
        case SpecialName =>
        case RTSpecialName =>
      }
    }
  }

  /** A sanity check on three concrete values: the bits the constructors get (0x1890 for
      `.cctor`, 0x1886 for `.ctor`) and those of a public, non-static interface
      implementation (0x0146). */
  lemma AttributeBitValues()
    ensures MethodBits(ConstructorAttributesFor(true)) == 0x1890
    ensures MethodBits(ConstructorAttributesFor(false)) == 0x1886
    ensures MethodBits(MethodAttributesFor(true, false, true)) == 0x0146
  {
  }

  // ---------------------------------------------------------------------------------------
  // Member definitions
  // ---------------------------------------------------------------------------------------

  datatype FieldDefinition = FieldDefinition(name: string, attributes: set<FieldAttribute>, fieldType: TypeRef)

  datatype ParameterDefinition = ParameterDefinition(parameterType: TypeRef)

  datatype MethodDefinition = MethodDefinition(
    name: string,
    attributes: set<MethodAttribute>,
    returnType: TypeRef,
    parameters: seq<ParameterDefinition>,
    overrides: seq<MemberRef>)

  /** A property; its attributes are always `PropertyAttributes.None`, so none are kept. */
  datatype PropertyDefinition = PropertyDefinition(
    name: string,
    propertyType: TypeRef,
    setMethod: Option<MethodDefinition>,
    getMethod: Option<MethodDefinition>)

  /** A constructor is the one kind of method definition this builder marks with
      `RTSpecialName`. */
  predicate IsConstructor(m: MethodDefinition) {
    RTSpecialName in m.attributes
  }

  /** The constructors among some method definitions, in order. */
  function Constructors(ms: seq<MethodDefinition>): seq<MethodDefinition> {
    if ms == [] then []
    else Constructors(ms[..|ms| - 1]) + if IsConstructor(ms[|ms| - 1]) then [ms[|ms| - 1]] else []
  }

  /** The other methods, in order. */
  function OrdinaryMethods(ms: seq<MethodDefinition>): seq<MethodDefinition> {
    if ms == [] then []
    else OrdinaryMethods(ms[..|ms| - 1]) + if IsConstructor(ms[|ms| - 1]) then [] else [ms[|ms| - 1]]
  }

  lemma ConstructorsSnoc(ms: seq<MethodDefinition>, m: MethodDefinition)
    ensures Constructors(ms + [m]) == Constructors(ms) + if IsConstructor(m) then [m] else []
    ensures OrdinaryMethods(ms + [m]) == OrdinaryMethods(ms) + if IsConstructor(m) then [] else [m]
  {
    assert (ms + [m])[..|ms|] == ms;
  }

  /** Every definition is either a constructor or an ordinary method: the two lists
      partition the type's methods, each definition landing in exactly one of them as
      often as it occurs. */
  lemma {:induction false} MethodsPartition(ms: seq<MethodDefinition>)
    ensures |Constructors(ms)| + |OrdinaryMethods(ms)| == |ms|
    ensures multiset(Constructors(ms)) + multiset(OrdinaryMethods(ms)) == multiset(ms)
    ensures forall m :: m in Constructors(ms) ==> m in ms && IsConstructor(m)
    ensures forall m :: m in OrdinaryMethods(ms) ==> m in ms && !IsConstructor(m)
  {
    if ms != [] {
      var init := ms[..|ms| - 1];
      var last := ms[|ms| - 1];
      MethodsPartition(init);
      assert ms == init + [last];
      assert multiset(ms) == multiset(init) + multiset{last};
    }
  }

  /** The `TypeDefinition` under construction: its identity and member lists. */
  class TypeDefinition {
    const namespace: string
    const name: string
    const attributes: set<TypeAttribute>
    const baseType: Option<TypeRef>
    var fields: seq<FieldDefinition>
    var methods: seq<MethodDefinition>
    var properties: seq<PropertyDefinition>
    /** `Interfaces`, each implementation by its interface type. */
    var interfaces: seq<TypeRef>
    var nestedTypes: seq<TypeDefinition>

    constructor(namespace: string, name: string, attributes: set<TypeAttribute>, baseType: Option<TypeRef>)
      ensures this.namespace == namespace && this.name == name
      ensures this.attributes == attributes && this.baseType == baseType
      ensures fields == [] && methods == [] && properties == [] && interfaces == [] && nestedTypes == []
    {
      this.namespace := namespace;
      this.name := name;
      this.attributes := attributes;
      this.baseType := baseType;
      fields := [];
      methods := [];
      properties := [];
      interfaces := [];
      nestedTypes := [];
    }
  }

  /** The wrappers through which the rest of the compiler sees the new members
      (`CecilField`, `CecilMethod`, `CecilProperty`, `CecilConstructor`). */
  datatype CecilField = CecilField(field: FieldDefinition, declaringType: TypeDefinition)
  datatype CecilMethod = CecilMethod(methodDef: MethodDefinition, declaringType: TypeDefinition)
  datatype CecilProperty = CecilProperty(property: PropertyDefinition, declaringType: TypeDefinition)
  datatype CecilConstructor = CecilConstructor(ctor: MethodDefinition, declaringType: TypeDefinition)

  function FieldsOf(ws: seq<CecilField>): (r: seq<FieldDefinition>)
    ensures |r| == |ws| && forall i :: 0 <= i < |ws| ==> r[i] == ws[i].field
  {
    seq(|ws|, i requires 0 <= i < |ws| => ws[i].field)
  }

  function MethodsOf(ws: seq<CecilMethod>): (r: seq<MethodDefinition>)
    ensures |r| == |ws| && forall i :: 0 <= i < |ws| ==> r[i] == ws[i].methodDef
  {
    seq(|ws|, i requires 0 <= i < |ws| => ws[i].methodDef)
  }

  function PropertiesOf(ws: seq<CecilProperty>): (r: seq<PropertyDefinition>)
    ensures |r| == |ws| && forall i :: 0 <= i < |ws| ==> r[i] == ws[i].property
  {
    seq(|ws|, i requires 0 <= i < |ws| => ws[i].property)
  }

  function ConstructorsOf(ws: seq<CecilConstructor>): (r: seq<MethodDefinition>)
    ensures |r| == |ws| && forall i :: 0 <= i < |ws| ==> r[i] == ws[i].ctor
  {
    seq(|ws|, i requires 0 <= i < |ws| => ws[i].ctor)
  }

  /** The method wrappers of type `d` mirror its method definitions `defs`: the ordinary
      methods and the constructors, each in order, every wrapper declared by `d`. */
  ghost predicate MethodsMirror(d: TypeDefinition, defs: seq<MethodDefinition>, ws: seq<CecilMethod>, cs: seq<CecilConstructor>) {
    && MethodsOf(ws) == OrdinaryMethods(defs)
    && ConstructorsOf(cs) == Constructors(defs)
    && (forall i :: 0 <= i < |ws| ==> ws[i].declaringType == d)
    && (forall i :: 0 <= i < |cs| ==> cs[i].declaringType == d)
  }

  /** Appending an ordinary method and its wrapper keeps the wrapper lists mirroring the
      definitions; the constructor list stays as it was. */
  lemma AppendOrdinaryMirrors(d: TypeDefinition, defs: seq<MethodDefinition>, ws: seq<CecilMethod>, cs: seq<CecilConstructor>, w: CecilMethod)
    requires MethodsMirror(d, defs, ws, cs)
    requires !IsConstructor(w.methodDef) && w.declaringType == d
    ensures MethodsMirror(d, defs + [w.methodDef], ws + [w], cs)
    ensures MethodsOf(ws + [w]) == OrdinaryMethods(defs + [w.methodDef])
    ensures ConstructorsOf(cs) == Constructors(defs + [w.methodDef])
  {
    ConstructorsSnoc(defs, w.methodDef);
    assert MethodsOf(ws + [w]) == MethodsOf(ws) + [w.methodDef];
  }

  /** Appending a constructor and its wrapper keeps the wrapper lists mirroring the
      definitions; the ordinary-method list stays as it was. */
  lemma AppendConstructorMirrors(d: TypeDefinition, defs: seq<MethodDefinition>, ws: seq<CecilMethod>, cs: seq<CecilConstructor>, c: CecilConstructor)
    requires MethodsMirror(d, defs, ws, cs)
    requires IsConstructor(c.ctor) && c.declaringType == d
    ensures MethodsMirror(d, defs + [c.ctor], ws, cs + [c])
    ensures MethodsOf(ws) == OrdinaryMethods(defs + [c.ctor])
    ensures ConstructorsOf(cs + [c]) == Constructors(defs + [c.ctor])
  {
    ConstructorsSnoc(defs, c.ctor);
    assert ConstructorsOf(cs + [c]) == ConstructorsOf(cs) + [c.ctor];
  }

  /** The parameters `args` gives (lines 53-55 and 90-92): one per type, in order, none for
      a null list. */
  method BuildParameters(args: Option<seq<TypeRef>>) returns (ps: seq<ParameterDefinition>)
    ensures args.None? ==> ps == []
    ensures args.Some? ==>
      |ps| == |args.value| && forall i :: 0 <= i < |ps| ==> ps[i] == ParameterDefinition(args.value[i])
  {
    ps := [];
    if args.Some? {
      var k := 0;
      while k < |args.value|
        invariant 0 <= k <= |args.value|
        invariant |ps| == k && forall i :: 0 <= i < k ==> ps[i] == ParameterDefinition(args.value[i])
      {
        ps := ps + [ParameterDefinition(args.value[k])];
        k := k + 1;
      }
    }
  }

  /** `CecilTypeBuilder`: the definition under construction and the wrapper lists it keeps
      beside it. */
  class TypeBuilder {
    const definition: TypeDefinition
    const assembly: AssemblyId
    /** `Definition.Module.TypeSystem.Void`. */
    const voidType: TypeRef
    var fields: seq<CecilField>
    var methods: seq<CecilMethod>
    var properties: seq<CecilProperty>
    var constructors: seq<CecilConstructor>
    /** `_interfaces`, the cached interface list; `None` is null. */
    var interfacesCache: Option<seq<TypeRef>>

    /** The wrapper lists mirror the definition: fields and properties one for one, the
        methods split into ordinary methods and constructors, every wrapper declared by this
        type; a cached interface list is the definition's. */
    ghost predicate Valid()
      reads this, definition
    {
      && FieldsOf(fields) == definition.fields
      && PropertiesOf(properties) == definition.properties
      && MethodsMirror(definition, definition.methods, methods, constructors)
      && (forall i :: 0 <= i < |fields| ==> fields[i].declaringType == definition)
      && (forall i :: 0 <= i < |properties| ==> properties[i].declaringType == definition)
      && (interfacesCache.Some? ==> interfacesCache.value == definition.interfaces)
    }

    /** The wrapper lists start as the wrappers of the definition's members, with no
        cached interface list. */
    constructor(definition: TypeDefinition, assembly: AssemblyId, voidType: TypeRef)
      ensures Valid()
      ensures this.definition == definition && this.assembly == assembly && this.voidType == voidType
      ensures interfacesCache == None
    {
      this.definition := definition;
      this.assembly := assembly;
      this.voidType := voidType;
      var declared := definition.fields;
      var props := definition.properties;
      fields := seq(|declared|, i requires 0 <= i < |declared| => CecilField(declared[i], definition));
      properties := seq(|props|, i requires 0 <= i < |props| => CecilProperty(props[i], definition));
      var ordinary := OrdinaryMethods(definition.methods);
      var ctors := Constructors(definition.methods);
      methods := seq(|ordinary|, i requires 0 <= i < |ordinary| => CecilMethod(ordinary[i], definition));
      constructors := seq(|ctors|, i requires 0 <= i < |ctors| => CecilConstructor(ctors[i], definition));
      interfacesCache := None;
      new;
      assert FieldsOf(fields) == declared;
      assert PropertiesOf(properties) == props;
      assert MethodsOf(methods) == ordinary;
      assert ConstructorsOf(constructors) == ctors;
    }

    /** `DefineField`, lines 18-32. */
    method DefineField(fieldType: TypeRef, name: string, isPublic: bool, isStatic: bool) returns (rv: CecilField)
      requires Valid()
      modifies this, definition
      ensures Valid()
      ensures rv == CecilField(FieldDefinition(name, FieldAttributesFor(isPublic, isStatic), fieldType), definition)
      ensures definition.fields == old(definition.fields) + [rv.field]
      ensures fields == old(fields) + [rv]
      ensures methods == old(methods) && properties == old(properties) && constructors == old(constructors)
      ensures interfacesCache == old(interfacesCache)
      ensures definition.methods == old(definition.methods) && definition.properties == old(definition.properties)
      ensures definition.interfaces == old(definition.interfaces) && definition.nestedTypes == old(definition.nestedTypes)
    {
      var attrs: set<FieldAttribute> := {};
      if isPublic {
        attrs := attrs + {FieldPublic};
      }
      if isStatic {
        attrs := attrs + {FieldStatic};
      }
      var def := FieldDefinition(name, attrs, fieldType);
      definition.fields := definition.fields + [def];
      rv := CecilField(def, definition);
      assert FieldsOf(fields + [rv]) == FieldsOf(fields) + [def];
      fields := fields + [rv];
    }

    /** `AddInterfaceImplementation`, lines 34-38: one more interface, cache cleared. */
    method AddInterfaceImplementation(interfaceType: TypeRef)
      requires Valid()
      modifies this, definition
      ensures Valid()
      ensures definition.interfaces == old(definition.interfaces) + [interfaceType]
      ensures interfacesCache == None
      ensures fields == old(fields) && methods == old(methods) && properties == old(properties)
      ensures constructors == old(constructors)
      ensures definition.fields == old(definition.fields) && definition.methods == old(definition.methods)
      ensures definition.properties == old(definition.properties) && definition.nestedTypes == old(definition.nestedTypes)
    {
      definition.interfaces := definition.interfaces + [interfaceType];
      interfacesCache := None;
    }

    /** `DefineMethod`, lines 40-63. */
    method DefineMethod(returnType: TypeRef, args: Option<seq<TypeRef>>, name: string, isPublic: bool,
                        isStatic: bool, isInterfaceImpl: bool, overrideMethod: Option<MemberRef>)
      returns (rv: CecilMethod)
      requires Valid()
      modifies this, definition
      ensures Valid()
      ensures rv.declaringType == definition
      ensures rv.methodDef.name == name && rv.methodDef.returnType == returnType
      ensures rv.methodDef.attributes == MethodAttributesFor(isPublic, isStatic, isInterfaceImpl)
      ensures args.None? ==> rv.methodDef.parameters == []
      ensures args.Some? ==>
        |rv.methodDef.parameters| == |args.value| && forall i :: 0 <= i < |args.value| ==> rv.methodDef.parameters[i] == ParameterDefinition(args.value[i])
      ensures rv.methodDef.overrides == if overrideMethod.Some? then [overrideMethod.value] else []
      ensures definition.methods == old(definition.methods) + [rv.methodDef]
      ensures methods == old(methods) + [rv]
      ensures fields == old(fields) && properties == old(properties) && constructors == old(constructors)
      ensures interfacesCache == old(interfacesCache)
      ensures definition.fields == old(definition.fields) && definition.properties == old(definition.properties)
      ensures definition.interfaces == old(definition.interfaces) && definition.nestedTypes == old(definition.nestedTypes)
    {
      var attrs := MethodAttributesFor(isPublic, isStatic, isInterfaceImpl);
      var parameters := BuildParameters(args);
      var overrides := if overrideMethod.Some? then [overrideMethod.value] else [];
      var def := MethodDefinition(name, attrs, returnType, parameters, overrides);
      rv := CecilMethod(def, definition);
      definition.methods := definition.methods + [def];
      methods := methods + [rv];
      AppendOrdinaryMirrors(definition, old(definition.methods), old(methods), constructors, rv);
    }

    /** `DefineProperty`, lines 65-77: the accessors are the given methods' definitions,
        absent when not given. */
    method DefineProperty(propertyType: TypeRef, name: string, setter: Option<CecilMethod>, getter: Option<CecilMethod>)
      returns (rv: CecilProperty)
      requires Valid()
      modifies this, definition
      ensures Valid()
      ensures rv.declaringType == definition
      ensures rv.property.name == name && rv.property.propertyType == propertyType
      ensures rv.property.setMethod.Some? <==> setter.Some?
      ensures setter.Some? ==> rv.property.setMethod.value == setter.value.methodDef
      ensures rv.property.getMethod.Some? <==> getter.Some?
      ensures getter.Some? ==> rv.property.getMethod.value == getter.value.methodDef
      ensures definition.properties == old(definition.properties) + [rv.property]
      ensures properties == old(properties) + [rv]
      ensures fields == old(fields) && methods == old(methods) && constructors == old(constructors)
      ensures interfacesCache == old(interfacesCache)
      ensures definition.fields == old(definition.fields) && definition.methods == old(definition.methods)
      ensures definition.interfaces == old(definition.interfaces) && definition.nestedTypes == old(definition.nestedTypes)
    {
      var setMethod := if setter.Some? then Some(setter.value.methodDef) else None;
      var getMethod := if getter.Some? then Some(getter.value.methodDef) else None;
      var def := PropertyDefinition(name, propertyType, setMethod, getMethod);
      definition.properties := definition.properties + [def];
      rv := CecilProperty(def, definition);
      assert PropertiesOf(properties + [rv]) == PropertiesOf(properties) + [def];
      properties := properties + [rv];
    }

    /** `DefineConstructor`, lines 79-98. */
    method DefineConstructor(isStatic: bool, args: Option<seq<TypeRef>>) returns (rv: CecilConstructor)
      requires Valid()
      modifies this, definition
      ensures Valid()
      ensures rv.declaringType == definition
      ensures rv.ctor.name == if isStatic then ".cctor" else ".ctor"
      ensures rv.ctor.attributes == ConstructorAttributesFor(isStatic)
      ensures rv.ctor.returnType == voidType && rv.ctor.overrides == []
      ensures args.None? ==> rv.ctor.parameters == []
      ensures args.Some? ==>
        |rv.ctor.parameters| == |args.value| && forall i :: 0 <= i < |args.value| ==> rv.ctor.parameters[i] == ParameterDefinition(args.value[i])
      ensures definition.methods == old(definition.methods) + [rv.ctor]
      ensures constructors == old(constructors) + [rv]
      ensures fields == old(fields) && methods == old(methods) && properties == old(properties)
      ensures interfacesCache == old(interfacesCache)
      ensures definition.fields == old(definition.fields) && definition.properties == old(definition.properties)
      ensures definition.interfaces == old(definition.interfaces) && definition.nestedTypes == old(definition.nestedTypes)
    {
      var attrs := ConstructorAttributesFor(isStatic);
      var parameters := BuildParameters(args);
      var def := MethodDefinition(if isStatic then ".cctor" else ".ctor", attrs, voidType, parameters, []);
      rv := CecilConstructor(def, definition);
      definition.methods := definition.methods + [def];
      constructors := constructors + [rv];
      AppendConstructorMirrors(definition, old(definition.methods), methods, old(constructors), rv);
    }

    /** `CreateType`, line 100: the builder is itself the finished type. */
    method CreateType() returns (t: TypeBuilder)
      ensures t == this
    {
      t := this;
    }

    /** `DefineSubType`, lines 102-108: a nested type with an empty namespace, appended to
        this type's nested types, and a new builder for it in the same assembly. */
    method DefineSubType(baseType: TypeRef, name: string, isPublic: bool) returns (nested: TypeBuilder)
      requires Valid()
      modifies definition
      ensures Valid()
      ensures fresh(nested) && fresh(nested.definition) && nested.Valid()
      ensures nested.definition.namespace == "" && nested.definition.name == name
      ensures nested.definition.attributes == if isPublic then {NestedPublic} else {NestedPrivate}
      ensures nested.definition.baseType == Some(baseType)
      ensures nested.assembly == assembly && nested.voidType == voidType
      ensures nested.fields == [] && nested.methods == [] && nested.properties == [] && nested.constructors == []
      ensures nested.interfacesCache == None
      ensures nested.definition.interfaces == [] && nested.definition.nestedTypes == []
      ensures definition.nestedTypes == old(definition.nestedTypes) + [nested.definition]
      ensures definition.fields == old(definition.fields) && definition.methods == old(definition.methods)
      ensures definition.properties == old(definition.properties) && definition.interfaces == old(definition.interfaces)
    {
      var td := new TypeDefinition("", name, if isPublic then {NestedPublic} else {NestedPrivate}, Some(baseType));
      definition.nestedTypes := definition.nestedTypes + [td];
      nested := new TypeBuilder(td, assembly, voidType);
    }
  }
}
