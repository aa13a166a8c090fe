/**
 The Candid text of IDL types, as the visitor of `did_file` prints it. Service and recursive types are
 not part of this model.
 */
module CandidTypes {
  import opened Wrappers
  import opened CandidNames

  datatype Primitive =
    | Null | Bool | Text | Empty | Reserved | Principal | Int | Nat | Float32 | Float64
    | Int8 | Int16 | Int32 | Int64 | Nat8 | Nat16 | Nat32 | Nat64

  datatype Annotation = Query | Oneway

  datatype Type =
    | Prim(p: Primitive)
    | Opt(t: Type)
    | Vec(t: Type)
    | Record(fields: seq<Field>)
    | Tuple(components: seq<Type>)
    | Variant(fields: seq<Field>)
    | Func(args: seq<Type>, rets: seq<Type>, annotations: seq<Annotation>)

  datatype Field = Field(name: string, fieldType: Type)

  // ---------- Printing ----------

  /** `t.display()` of a primitive type */
  function Display(p: Primitive): string {
    match p
    case Null => "null"
    case Bool => "bool"
    case Text => "text"
    case Empty => "empty"
    case Reserved => "reserved"
    case Principal => "principal"
    case Int => "int"
    case Nat => "nat"
    case Float32 => "float32"
    case Float64 => "float64"
    case Int8 => "int8"
    case Int16 => "int16"
    case Int32 => "int32"
    case Int64 => "int64"
    case Nat8 => "nat8"
    case Nat16 => "nat16"
    case Nat32 => "nat32"
    case Nat64 => "nat64"
  }

  /** The word that a printed type begins with. */
  function Keyword(t: Type): string {
    match t
    case Prim(p) => Display(p)
    case Opt(_) => "opt"
    case Vec(_) => "vec"
    case Record(_) => "record"
    case Tuple(_) => "record"
    case Variant(_) => "variant"
    case Func(_, _, _) => "func"
  }

  function Print(kw: seq<string>, t: Type): string
    decreases t, 1
  {
    Keyword(t) + PrintRest(kw, t)
  }

  function PrintRest(kw: seq<string>, t: Type): string
    decreases t, 0
  {
    match t
    case Prim(_) => ""
    case Opt(e) => " " + Print(kw, e)
    case Vec(e) => " " + Print(kw, e)
    case Record(fields) => " {" + PrintFields(kw, fields, false)
    case Tuple(components) => " {" + PrintTypes(kw, components, ';', '}')
    case Variant(fields) => " {" + PrintFields(kw, fields, true)
    case Func(args, rets, annotations) =>
      " (" + (PrintTypes(kw, args, ',', ')') +
              (" -> (" + (PrintTypes(kw, rets, ',', ')') + PrintAnnotations(annotations))))
  }

  // `fields.join('; ')` and the closing brace
  function PrintFields(kw: seq<string>, fields: seq<Field>, variant: bool): string
    decreases fields, 0
  {
    if fields == [] then "}"
    else PrintField(kw, fields[0], variant) + (if |fields| == 1 then "}" else "; " + PrintFields(kw, fields[1..], variant))
  }

  // A variant shows a field of type null by its name alone.
  function PrintField(kw: seq<string>, f: Field, variant: bool): string
    decreases f, 0
  {
    EscapeName(kw, f.name) + if variant && f.fieldType == Prim(Null) then "" else ":" + Print(kw, f.fieldType)
  }

  // `types.join(sep + ' ')` and what closes it
  function PrintTypes(kw: seq<string>, types: seq<Type>, sep: char, close: char): string
    decreases types, 0
  {
    if types == [] then [close]
    else Print(kw, types[0]) + (if |types| == 1 then [close] else [sep, ' '] + PrintTypes(kw, types[1..], sep, close))
  }

  function Word(a: Annotation): string {
    if a == Query then "query" else "oneway"
  }

  function PrintAnnotations(annotations: seq<Annotation>): string {
    if annotations == [] then "" else [' '] + (Word(annotations[0]) + PrintAnnotations(annotations[1..]))
  }

  /** `idlToString(IDL.Func(params, []))`: none of these types needs a type definition. */
  function Signature(kw: seq<string>, params: seq<Type>): string {
    Print(kw, Func(params, [], [])) + "\n"
  }

  // ---------- Equality of types ----------

  /** A type, with the empty tuple read as the empty record: the two print alike. */
  function Norm(t: Type): Type {
    match t
    case Prim(_) => t
    case Opt(e) => Opt(Norm(e))
    case Vec(e) => Vec(Norm(e))
    case Record(fields) => Record(NormFields(fields))
    case Tuple(components) => if components == [] then Record([]) else Tuple(NormTypes(components))
    case Variant(fields) => Variant(NormFields(fields))
    case Func(args, rets, annotations) => Func(NormTypes(args), NormTypes(rets), annotations)
  }

  function NormTypes(types: seq<Type>): seq<Type> {
    if types == [] then [] else [Norm(types[0])] + NormTypes(types[1..])
  }

  function NormFields(fields: seq<Field>): seq<Field> {
    if fields == [] then [] else [NormField(fields[0])] + NormFields(fields[1..])
  }

  function NormField(f: Field): Field {
    Field(f.name, Norm(f.fieldType))
  }

  // ---------- Words ----------

  /** Words that begin a type: each is a keyword, so that no bare field name reads like one. */
  ghost predicate Reserves(kw: seq<string>) {
    forall t: Type :: Keyword(t) in kw
  }

  lemma PrimsReserved(p: Primitive)
    ensures Display(p) in CANDID_KEYWORDS
  {
    var kw := CANDID_KEYWORDS;
    match p {
      case Null | Bool | Text | Empty | Reserved =>
        assert kw[18] == "null" && kw[1] == "bool" && kw[26] == "text" && kw[3] == "empty" && kw[24] == "reserved";
      case Principal | Int | Nat | Float32 | Float64 =>
        assert kw[21] == "principal" && kw[8] == "int" && kw[13] == "nat" && kw[4] == "float32" && kw[5] == "float64";
      case _ => SizedPrimsReserved(p);
    }
  }

  lemma SizedPrimsReserved(p: Primitive)
    requires p in {Int8, Int16, Int32, Int64, Nat8, Nat16, Nat32, Nat64}
    ensures Display(p) in CANDID_KEYWORDS
  {
    var kw := CANDID_KEYWORDS;
    assert kw[12] == "int8" && kw[9] == "int16" && kw[10] == "int32" && kw[11] == "int64";
    assert kw[17] == "nat8" && kw[14] == "nat16" && kw[15] == "nat32" && kw[16] == "nat64";
  }

  lemma ComposedReserved(t: Type)
    requires !t.Prim?
    ensures Keyword(t) in CANDID_KEYWORDS
  {
    var kw := CANDID_KEYWORDS;
    assert kw[20] == "opt" && kw[29] == "vec" && kw[23] == "record" && kw[28] == "variant" && kw[6] == "func";
  }

  lemma KeywordsReserved()
    ensures Reserves(CANDID_KEYWORDS)
  {
    forall t: Type ensures Keyword(t) in CANDID_KEYWORDS {
      if t.Prim? {
        PrimsReserved(t.p);
      } else {
        ComposedReserved(t);
      }
    }
  }

  /** What may come after a type. */
  predicate Delimited(rest: string) {
    rest == "" || rest[0] == ';' || rest[0] == '}' || rest[0] == ',' || rest[0] == ')'
  }

  lemma KeywordIsWord(t: Type)
    ensures Keyword(t) != "" && 'a' <= Keyword(t)[0] <= 'z' && AllIdChars(Keyword(t))
  {
    if t.Prim? {
      DisplayIsWord(t.p);
    } else {
      var w := Keyword(t);
      assert |w| <= 7;
      assert forall i :: 0 <= i < |w| ==> IsIdChar(w[i]);
      AllIdCharsFrom(w);
    }
  }

  lemma DisplayIsWord(p: Primitive)
    ensures Display(p) != "" && 'a' <= Display(p)[0] <= 'z' && AllIdChars(Display(p))
  {
    var w := Display(p);
    assert |w| <= 9;
    assert forall i :: 0 <= i < |w| ==> IsIdChar(w[i]);
    AllIdCharsFrom(w);
  }

  lemma {:induction false} AllIdCharsFrom(s: string)
    requires forall i :: 0 <= i < |s| ==> IsIdChar(s[i])
    ensures AllIdChars(s)
  {
    if s != "" {
      AllIdCharsFrom(s[1..]);
    }
  }

  lemma WordEnds(kw: seq<string>, t: Type, rest: string)
    requires Delimited(rest)
    ensures EndsId(PrintRest(kw, t) + rest)
  {
    if t.Prim? {
      assert PrintRest(kw, t) + rest == rest;
    }
  }

  lemma Associates(a: string, b: string, c: string)
    ensures (a + b) + c == a + (b + c)
  {
  }

  lemma FirstWord(kw: seq<string>, t: Type, rest: string)
    requires Delimited(rest)
    ensures IdRun(Print(kw, t) + rest) == Keyword(t)
    ensures Print(kw, t) + rest == Keyword(t) + (PrintRest(kw, t) + rest)
  {
    KeywordIsWord(t);
    WordEnds(kw, t, rest);
    Associates(Keyword(t), PrintRest(kw, t), rest);
    IdRunOfId(Keyword(t), PrintRest(kw, t) + rest);
  }

  // ---------- Types that are the same print alike ----------

  lemma {:induction false} NormPrints(kw: seq<string>, t: Type)
    ensures Print(kw, Norm(t)) == Print(kw, t)
    decreases t, 1
  {
    match t {
      case Prim(_) =>
      case Opt(e) => NormPrints(kw, e);
      case Vec(e) => NormPrints(kw, e);
      case Record(fields) => NormFieldsPrint(kw, fields, false);
      case Variant(fields) => NormFieldsPrint(kw, fields, true);
      case Tuple(components) => NormTypesPrint(kw, components, ';', '}');
      case Func(args, rets, _) =>
        NormTypesPrint(kw, args, ',', ')');
        NormTypesPrint(kw, rets, ',', ')');
    }
  }

  lemma {:induction false} NormTypesPrint(kw: seq<string>, types: seq<Type>, sep: char, close: char)
    ensures |NormTypes(types)| == |types|
    ensures PrintTypes(kw, NormTypes(types), sep, close) == PrintTypes(kw, types, sep, close)
    decreases types, 0
  {
    if types != [] {
      NormPrints(kw, types[0]);
      NormTypesPrint(kw, types[1..], sep, close);
    }
  }

  lemma {:induction false} NormFieldsPrint(kw: seq<string>, fields: seq<Field>, variant: bool)
    ensures |NormFields(fields)| == |fields|
    ensures PrintFields(kw, NormFields(fields), variant) == PrintFields(kw, fields, variant)
    decreases fields, 0
  {
    if fields != [] {
      NormFieldPrints(kw, fields[0], variant);
      NormFieldsPrint(kw, fields[1..], variant);
    }
  }

  lemma {:induction false} NormFieldPrints(kw: seq<string>, f: Field, variant: bool)
    ensures PrintField(kw, NormField(f), variant) == PrintField(kw, f, variant)
    decreases f, 0
  {
    NormPrints(kw, f.fieldType);
  }
}
