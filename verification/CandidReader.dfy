/**
 A reader of Candid types after the core grammar of the Candid specification, and what it makes of
 printed types. It reads any white space between words and signs, and a semicolon or comma at the end
 of a list; field numbers, argument names, comments and names of types are not part of it.
 */
module CandidReader {
  import opened Wrappers
  import opened CandidNames
  import opened CandidTypes

  // ---------- The reader ----------

  /** What a type begins with. */
  datatype Head = PrimHead(p: Primitive) | BlobHead | OptHead | VecHead | RecordHead | VariantHead | FuncHead

  const NAMED_PRIMS: seq<(string, Head)> := [
    ("null", PrimHead(Null)), ("bool", PrimHead(Bool)), ("text", PrimHead(Text)), ("empty", PrimHead(Empty)),
    ("reserved", PrimHead(Reserved)), ("principal", PrimHead(Principal)), ("int", PrimHead(Int)),
    ("nat", PrimHead(Nat)), ("float32", PrimHead(Float32)), ("float64", PrimHead(Float64))]

  const SIZED_PRIMS: seq<(string, Head)> := [
    ("int8", PrimHead(Int8)), ("int16", PrimHead(Int16)), ("int32", PrimHead(Int32)), ("int64", PrimHead(Int64)),
    ("nat8", PrimHead(Nat8)), ("nat16", PrimHead(Nat16)), ("nat32", PrimHead(Nat32)), ("nat64", PrimHead(Nat64))]

  const OTHER_HEADS: seq<(string, Head)> := [
    ("blob", BlobHead), ("opt", OptHead), ("vec", VecHead), ("record", RecordHead), ("variant", VariantHead),
    ("func", FuncHead)]

  /** The words that begin a type, in the grammar. */
  const HEADS := NAMED_PRIMS + SIZED_PRIMS + OTHER_HEADS

  /** The words that may follow the results of a function, in the grammar. */
  const ANNOTATIONS: seq<(string, Annotation)> := [("query", Query), ("oneway", Oneway)]

  function Find<T>(word: string, table: seq<(string, T)>): Option<T> {
    if table == [] then None
    else if table[0].0 == word then Some(table[0].1)
    else Find(word, table[1..])
  }

  predicate IsSpace(c: char) {
    c == ' ' || c == '\n' || c == '\t' || c == '\r'
  }

  function Skip(s: string): (r: string)
    ensures |r| <= |s|
  {
    if s != "" && IsSpace(s[0]) then Skip(s[1..]) else s
  }

  /** What comes after a sign, if that is next. */
  function After(s: string, sign: char): (r: Option<string>)
    ensures r.Some? ==> |r.value| < |s|
  {
    var t := Skip(s);
    if t != "" && t[0] == sign then Some(t[1..]) else None
  }

  function ReadHead(s: string): (r: Option<(Head, string)>)
    ensures r.Some? ==> |r.value.1| <= |s|
  {
    var t := Skip(s);
    IdRunIsPrefix(t);
    var head := Find(IdRun(t), HEADS);
    if head.Some? then Some((head.value, t[|IdRun(t)|..])) else None
  }

  predicate StartsName(kw: seq<string>, s: string) {
    s != "" && (s[0] == '"' || (IsLetter(s[0]) && IdRun(s) !in kw))
  }

  /** A type, and what comes after it. */
  function ReadType(kw: seq<string>, raw: char -> bool, s: string): (r: Option<(Type, string)>)
    ensures r.Some? ==> |r.value.1| <= |s|
    decreases |s|, 3
  {
    match ReadHead(s)
    case None => None
    case Some((head, rest)) => if |rest| >= |s| then None else ReadAfterHead(kw, raw, head, rest)
  }

  function ReadAfterHead(kw: seq<string>, raw: char -> bool, head: Head, s: string): (r: Option<(Type, string)>)
    ensures r.Some? ==> |r.value.1| <= |s|
    decreases |s|, 6
  {
    match head
    case PrimHead(p) => Some((Prim(p), s))
    case BlobHead => Some((Vec(Prim(Nat8)), s))
    case OptHead =>
      var e := ReadType(kw, raw, s);
      if e.None? then None else Some((Opt(e.value.0), e.value.1))
    case VecHead =>
      var e := ReadType(kw, raw, s);
      if e.None? then None else Some((Vec(e.value.0), e.value.1))
    case RecordHead =>
      var body := After(s, '{');
      if body.None? then None else ReadRecord(kw, raw, body.value)
    case VariantHead =>
      var body := After(s, '{');
      if body.None? then None
      else
        var fields := ReadFields(kw, raw, body.value, true);
        if fields.None? then None else Some((Variant(fields.value.0), fields.value.1))
    case FuncHead => ReadFunc(kw, raw, s)
  }

  /** A record is one of named fields, or of types. */
  function ReadRecord(kw: seq<string>, raw: char -> bool, s: string): (r: Option<(Type, string)>)
    ensures r.Some? ==> |r.value.1| <= |s|
    decreases |s|, 5
  {
    if After(s, '}').Some? || StartsName(kw, Skip(s)) then
      var fields := ReadFields(kw, raw, s, false);
      if fields.None? then None else Some((Record(fields.value.0), fields.value.1))
    else
      var types := ReadTypes(kw, raw, s, ';', '}');
      if types.None? then None else Some((Tuple(types.value.0), types.value.1))
  }

  function ReadFields(kw: seq<string>, raw: char -> bool, s: string, variant: bool): (r: Option<(seq<Field>, string)>)
    ensures r.Some? ==> |r.value.1| <= |s|
    decreases |s|, 4
  {
    if After(s, '}').Some? then Some(([], After(s, '}').value))
    else
      var f := ReadField(kw, raw, s, variant);
      if f.None? then None
      else if After(f.value.1, '}').Some? then Some(([f.value.0], After(f.value.1, '}').value))
      else
        var next := After(f.value.1, ';');
        if next.None? then None
        else
          var more := ReadFields(kw, raw, next.value, variant);
          if more.None? then None else Some(([f.value.0] + more.value.0, more.value.1))
  }

  /** A field; in a variant, a name alone is a field of type null. */
  function ReadField(kw: seq<string>, raw: char -> bool, s: string, variant: bool): (r: Option<(Field, string)>)
    ensures r.Some? ==> |r.value.1| <= |s|
    decreases |s|, 2
  {
    var name := ReadName(kw, Skip(s), raw);
    if name.None? then None
    else if After(name.value.1, ':').Some? then
      var t := ReadType(kw, raw, After(name.value.1, ':').value);
      if t.None? then None else Some((Field(name.value.0, t.value.0), t.value.1))
    else if variant then Some((Field(name.value.0, Prim(Null)), name.value.1))
    else None
  }

  function ReadTypes(kw: seq<string>, raw: char -> bool, s: string, sep: char, close: char): (r: Option<(seq<Type>, string)>)
    ensures r.Some? ==> |r.value.1| <= |s|
    decreases |s|, 4
  {
    if After(s, close).Some? then Some(([], After(s, close).value))
    else
      var t := ReadType(kw, raw, s);
      if t.None? then None
      else if After(t.value.1, close).Some? then Some(([t.value.0], After(t.value.1, close).value))
      else
        var next := After(t.value.1, sep);
        if next.None? then None
        else
          var more := ReadTypes(kw, raw, next.value, sep, close);
          if more.None? then None else Some(([t.value.0] + more.value.0, more.value.1))
  }

  function ReadFunc(kw: seq<string>, raw: char -> bool, s: string): (r: Option<(Type, string)>)
    ensures r.Some? ==> |r.value.1| <= |s|
    decreases |s|, 5
  {
    var open := After(s, '(');
    if open.None? then None
    else
      var args := ReadTypes(kw, raw, open.value, ',', ')');
      if args.None? then None
      else
        var dash := After(args.value.1, '-');
        if dash.None? || dash.value == "" || dash.value[0] != '>' then None
        else
          var open' := After(dash.value[1..], '(');
          if open'.None? then None
          else
            var rets := ReadTypes(kw, raw, open'.value, ',', ')');
            if rets.None? then None
            else
              var (annotations, rest) := ReadAnnotations(rets.value.1);
              Some((Func(args.value.0, rets.value.0, annotations), rest))
  }

  function ReadAnnotations(s: string): (r: (seq<Annotation>, string))
    ensures |r.1| <= |s|
    decreases |s|
  {
    var t := Skip(s);
    var word := IdRun(t);
    IdRunIsPrefix(t);
    var annotation := Find(word, ANNOTATIONS);
    if word != "" && annotation.Some? then
      var (more, rest) := ReadAnnotations(t[|word|..]);
      ([annotation.value] + more, rest)
    else ([], s)
  }

  // ---------- Words ----------

  function HeadOfType(t: Type): Head {
    match t
    case Prim(p) => PrimHead(p)
    case Opt(_) => OptHead
    case Vec(_) => VecHead
    case Record(_) => RecordHead
    case Tuple(_) => RecordHead
    case Variant(_) => VariantHead
    case Func(_, _, _) => FuncHead
  }

  /** How the printer spells what a type begins with. */
  function Spelling(h: Head): string {
    match h
    case PrimHead(p) => Display(p)
    case BlobHead => "blob"
    case OptHead => "opt"
    case VecHead => "vec"
    case RecordHead => "record"
    case VariantHead => "variant"
    case FuncHead => "func"
  }

  /** The table has the printer's words, each for what the printer means by it. */
  predicate Agrees(table: seq<(string, Head)>) {
    forall e <- table :: e.0 == Spelling(e.1)
  }

  lemma TwoAgree(a: (string, Head), b: (string, Head))
    requires a.0 == Spelling(a.1) && b.0 == Spelling(b.1)
    ensures Agrees([a, b])
  {
  }

  lemma FourAgree(a: (string, Head), b: (string, Head), c: (string, Head), d: (string, Head))
    requires a.0 == Spelling(a.1) && b.0 == Spelling(b.1) && c.0 == Spelling(c.1) && d.0 == Spelling(d.1)
    ensures Agrees([a, b, c, d])
  {
  }

  lemma NamedPrimsAgree()
    ensures Agrees(NAMED_PRIMS)
  {
    var t := NAMED_PRIMS;
    FourAgree(t[0], t[1], t[2], t[3]);
    FourAgree(t[4], t[5], t[6], t[7]);
    TwoAgree(t[8], t[9]);
    AgreesConcat([t[0], t[1], t[2], t[3]], [t[4], t[5], t[6], t[7]]);
    AgreesConcat([t[0], t[1], t[2], t[3]] + [t[4], t[5], t[6], t[7]], [t[8], t[9]]);
    assert t == [t[0], t[1], t[2], t[3]] + [t[4], t[5], t[6], t[7]] + [t[8], t[9]];
  }

  lemma SignedAgree()
    ensures Agrees([("int8", PrimHead(Int8)), ("int16", PrimHead(Int16)), ("int32", PrimHead(Int32)), ("int64", PrimHead(Int64))])
  {
    FourAgree(("int8", PrimHead(Int8)), ("int16", PrimHead(Int16)), ("int32", PrimHead(Int32)), ("int64", PrimHead(Int64)));
  }

  lemma UnsignedAgree()
    ensures Agrees([("nat8", PrimHead(Nat8)), ("nat16", PrimHead(Nat16)), ("nat32", PrimHead(Nat32)), ("nat64", PrimHead(Nat64))])
  {
    FourAgree(("nat8", PrimHead(Nat8)), ("nat16", PrimHead(Nat16)), ("nat32", PrimHead(Nat32)), ("nat64", PrimHead(Nat64)));
  }

  lemma SizedPrimsAgree()
    ensures Agrees(SIZED_PRIMS)
  {
    var t := SIZED_PRIMS;
    SignedAgree();
    UnsignedAgree();
    AgreesConcat([t[0], t[1], t[2], t[3]], [t[4], t[5], t[6], t[7]]);
    assert t == [t[0], t[1], t[2], t[3]] + [t[4], t[5], t[6], t[7]];
  }

  lemma OtherHeadsAgree()
    ensures Agrees(OTHER_HEADS)
  {
    var t := OTHER_HEADS;
    FourAgree(t[0], t[1], t[2], t[3]);
    TwoAgree(t[4], t[5]);
    AgreesConcat([t[0], t[1], t[2], t[3]], [t[4], t[5]]);
    assert t == [t[0], t[1], t[2], t[3]] + [t[4], t[5]];
  }

  lemma AgreesConcat(a: seq<(string, Head)>, b: seq<(string, Head)>)
    requires Agrees(a) && Agrees(b)
    ensures Agrees(a + b)
  {
  }

  lemma HeadsAgree()
    ensures Agrees(HEADS)
  {
    NamedPrimsAgree();
    SizedPrimsAgree();
    OtherHeadsAgree();
    AgreesConcat(NAMED_PRIMS, SIZED_PRIMS);
    AgreesConcat(NAMED_PRIMS + SIZED_PRIMS, OTHER_HEADS);
  }

  lemma SpellingsDiffer(a: Head, b: Head)
    requires Spelling(a) == Spelling(b)
    ensures a == b
  {
    var v, w := Spelling(a), Spelling(b);
    assert |v| == |w| && v[0] == w[0] && v[1] == w[1] && v[2] == w[2];
    assert |v| > 3 ==> v[3] == w[3];
    assert |v| > 5 ==> v[5] == w[5];
  }

  lemma {:induction false} HeadIsFound(h: Head, heads: seq<(string, Head)>)
    requires Agrees(heads) && (Spelling(h), h) in heads
    ensures Find(Spelling(h), heads) == Some(h)
  {
    assert heads[0] in heads;
    if heads[0].0 == Spelling(h) {
      SpellingsDiffer(heads[0].1, h);
    } else {
      HeadIsFound(h, heads[1..]);
    }
  }

  lemma EveryHeadIsThere(h: Head)
    ensures (Spelling(h), h) in HEADS
  {
    var e := (Spelling(h), h);
    if h.PrimHead? && IsSized(h.p) {
      SizedPrimIsThere(h.p);
    } else if h.PrimHead? {
      NamedPrimIsThere(h.p);
    } else {
      OtherHeadIsThere(h);
    }
    InSum(e, NAMED_PRIMS, SIZED_PRIMS);
    InSum(e, NAMED_PRIMS + SIZED_PRIMS, OTHER_HEADS);
  }

  lemma InSum<T>(x: T, a: seq<T>, b: seq<T>)
    ensures x in a + b <==> x in a || x in b
  {
  }

  predicate IsSized(p: Primitive) {
    p.Int8? || p.Int16? || p.Int32? || p.Int64? || p.Nat8? || p.Nat16? || p.Nat32? || p.Nat64?
  }

  lemma NamedPrimIsThere(p: Primitive)
    requires !IsSized(p)
    ensures (Display(p), PrimHead(p)) in NAMED_PRIMS
  {
    var hs := NAMED_PRIMS;
    assert hs[0].1.p == Null && hs[1].1.p == Bool && hs[2].1.p == Text && hs[3].1.p == Empty && hs[4].1.p == Reserved;
    assert hs[5].1.p == Principal && hs[6].1.p == Int && hs[7].1.p == Nat && hs[8].1.p == Float32 && hs[9].1.p == Float64;
  }

  lemma SizedPrimIsThere(p: Primitive)
    requires IsSized(p)
    ensures (Display(p), PrimHead(p)) in SIZED_PRIMS
  {
    var hs := SIZED_PRIMS;
    assert hs[0].1.p == Int8 && hs[1].1.p == Int16 && hs[2].1.p == Int32 && hs[3].1.p == Int64;
    assert hs[4].1.p == Nat8 && hs[5].1.p == Nat16 && hs[6].1.p == Nat32 && hs[7].1.p == Nat64;
  }

  lemma OtherHeadIsThere(h: Head)
    requires !h.PrimHead?
    ensures (Spelling(h), h) in OTHER_HEADS
  {
    var hs := OTHER_HEADS;
    assert hs[0].1 == BlobHead && hs[1].1 == OptHead && hs[2].1 == VecHead;
    assert hs[3].1 == RecordHead && hs[4].1 == VariantHead && hs[5].1 == FuncHead;
  }

  lemma SkipNothing(s: string)
    requires s == "" || !IsSpace(s[0])
    ensures Skip(s) == s && Skip([' '] + s) == s
  {
    assert ([' '] + s)[1..] == s;
  }

  lemma AfterSign(sign: char, other: char, rest: string)
    requires !IsSpace(sign)
    ensures After([sign] + rest, other) == if sign == other then Some(rest) else None
    ensures After([' ', sign] + rest, other) == if sign == other then Some(rest) else None
  {
    assert ([sign] + rest)[1..] == rest;
    assert [' ', sign] + rest == [' '] + ([sign] + rest);
    SkipNothing([sign] + rest);
  }

  // The first word of a printed type is read as its head.
  lemma HeadReads(kw: seq<string>, t: Type, rest: string)
    requires Delimited(rest)
    ensures ReadHead(Print(kw, t) + rest) == Some((HeadOfType(t), PrintRest(kw, t) + rest))
    ensures ReadHead([' '] + (Print(kw, t) + rest)) == ReadHead(Print(kw, t) + rest)
    ensures |PrintRest(kw, t) + rest| < |Print(kw, t) + rest|
  {
    var word, later := Keyword(t), PrintRest(kw, t) + rest;
    FirstWord(kw, t, rest);
    KeywordIsWord(t);
    SkipNothing(word + later);
    HeadSpelled(t);
    EveryHeadIsThere(HeadOfType(t));
    HeadsAgree();
    HeadIsFound(HeadOfType(t), HEADS);
    assert (word + later)[|word|..] == later;
  }

  lemma HeadSpelled(t: Type)
    ensures Spelling(HeadOfType(t)) == Keyword(t)
  {
  }

  // ---------- White space in front ----------

  lemma {:induction false} SkipTwice(s: string)
    ensures Skip(Skip(s)) == Skip(s)
  {
    if s != "" && IsSpace(s[0]) {
      SkipTwice(s[1..]);
    }
  }

  lemma {:induction false} HeadHasWord(word: string, heads: seq<(string, Head)>)
    requires Agrees(heads) && Find(word, heads).Some?
    ensures word != ""
  {
    assert heads[0] in heads;
    if heads[0].0 != word {
      HeadHasWord(word, heads[1..]);
    } else {
      SpellingHasChars(heads[0].1);
    }
  }

  lemma SpellingHasChars(h: Head)
    ensures Spelling(h) != ""
  {
  }

  lemma HeadSkips(s: string)
    ensures ReadHead(s) == ReadHead(Skip(s))
    ensures ReadHead(s).Some? ==> |ReadHead(s).value.1| < |Skip(s)|
  {
    SkipTwice(s);
    if ReadHead(s).Some? {
      HeadsAgree();
      HeadHasWord(IdRun(Skip(s)), HEADS);
      IdRunIsPrefix(Skip(s));
    }
  }

  lemma TypeSkips(kw: seq<string>, raw: char -> bool, s: string)
    ensures ReadType(kw, raw, s) == ReadType(kw, raw, Skip(s))
  {
    HeadSkips(s);
  }

  lemma FieldsSkip(kw: seq<string>, raw: char -> bool, s: string, variant: bool)
    ensures ReadFields(kw, raw, s, variant) == ReadFields(kw, raw, Skip(s), variant)
  {
    SkipTwice(s);
  }

  lemma TypesSkip(kw: seq<string>, raw: char -> bool, s: string, sep: char, close: char)
    ensures ReadTypes(kw, raw, s, sep, close) == ReadTypes(kw, raw, Skip(s), sep, close)
  {
    SkipTwice(s);
    TypeSkips(kw, raw, s);
  }

  // ---------- Printed types are read ----------

  /** All names in a type are readable. */
  predicate TypeReadable(kw: seq<string>, raw: char -> bool, t: Type) {
    match t
    case Prim(_) => true
    case Opt(e) => TypeReadable(kw, raw, e)
    case Vec(e) => TypeReadable(kw, raw, e)
    case Record(fields) => FieldsReadable(kw, raw, fields)
    case Tuple(components) => TypesReadable(kw, raw, components)
    case Variant(fields) => FieldsReadable(kw, raw, fields)
    case Func(args, rets, _) => TypesReadable(kw, raw, args) && TypesReadable(kw, raw, rets)
  }

  predicate TypesReadable(kw: seq<string>, raw: char -> bool, types: seq<Type>) {
    types == [] || (TypeReadable(kw, raw, types[0]) && TypesReadable(kw, raw, types[1..]))
  }

  predicate FieldsReadable(kw: seq<string>, raw: char -> bool, fields: seq<Field>) {
    fields == [] || (FieldReadable(kw, raw, fields[0]) && FieldsReadable(kw, raw, fields[1..]))
  }

  predicate FieldReadable(kw: seq<string>, raw: char -> bool, f: Field) {
    Readable(kw, f.name, raw) && TypeReadable(kw, raw, f.fieldType)
  }

  /** What the reader makes of a printed type: the type, or nothing if one of its names is not readable. */
  ghost predicate Reads(kw: seq<string>, raw: char -> bool, t: Type, rest: string) {
    ReadType(kw, raw, Print(kw, t) + rest) == if TypeReadable(kw, raw, t) then Some((Norm(t), rest)) else None
  }

  ghost predicate FieldsRead(kw: seq<string>, raw: char -> bool, fields: seq<Field>, variant: bool, rest: string) {
    ReadFields(kw, raw, PrintFields(kw, fields, variant) + rest, variant) ==
    if FieldsReadable(kw, raw, fields) then Some((NormFields(fields), rest)) else None
  }

  ghost predicate TypesRead(kw: seq<string>, raw: char -> bool, types: seq<Type>, sep: char, close: char, rest: string) {
    ReadTypes(kw, raw, PrintTypes(kw, types, sep, close) + rest, sep, close) ==
    if TypesReadable(kw, raw, types) then Some((NormTypes(types), rest)) else None
  }

  lemma PrintStarts(kw: seq<string>, t: Type, rest: string)
    ensures var s := Print(kw, t) + rest; s != "" && 'a' <= s[0] <= 'z' && Skip(s) == s && Skip([' '] + s) == s
  {
    KeywordIsWord(t);
    SkipNothing(Print(kw, t) + rest);
  }

  lemma ElementReads(kw: seq<string>, raw: char -> bool, t: Type, e: Type, rest: string)
    requires (t == Opt(e) || t == Vec(e)) && Delimited(rest) && Reads(kw, raw, e, rest)
    ensures Reads(kw, raw, t, rest)
  {
    HeadReads(kw, t, rest);
    Associates([' '], Print(kw, e), rest);
    TypeSkips(kw, raw, [' '] + (Print(kw, e) + rest));
    PrintStarts(kw, e, rest);
  }

  // The braces of a record or a variant.
  lemma BraceReads(kw: seq<string>, t: Type, body: string, rest: string)
    requires PrintRest(kw, t) == " {" + body
    ensures After(PrintRest(kw, t) + rest, '{') == Some(body + rest)
  {
    assert (" {" + body) + rest == [' ', '{'] + (body + rest);
    AfterSign('{', '{', body + rest);
  }

  lemma VariantReads(kw: seq<string>, raw: char -> bool, t: Type, rest: string)
    requires t.Variant? && Delimited(rest) && FieldsRead(kw, raw, t.fields, true, rest)
    ensures Reads(kw, raw, t, rest)
  {
    HeadReads(kw, t, rest);
    BraceReads(kw, t, PrintFields(kw, t.fields, true), rest);
  }

  // A record is read from behind its brace.
  lemma BodyReads(kw: seq<string>, raw: char -> bool, t: Type, body: string, rest: string)
    requires (t.Record? || t.Tuple?) && Delimited(rest) && PrintRest(kw, t) == " {" + body
    ensures ReadType(kw, raw, Print(kw, t) + rest) == ReadRecord(kw, raw, body + rest)
  {
    HeadReads(kw, t, rest);
    BraceReads(kw, t, body, rest);
  }

  lemma NameStarts(kw: seq<string>, name: string, rest: string)
    requires EndsId(rest)
    ensures var s := EscapeName(kw, name) + rest;
            s != "" && (s[0] == '"' || IsLetter(s[0])) && StartsName(kw, s) && Skip(s) == s && Skip([' '] + s) == s
  {
    var s := EscapeName(kw, name) + rest;
    if IsId(name) && name !in kw {
      IdRunOfId(name, rest);
    } else {
      EscapeTextIsEscaped(name);
    }
    SkipNothing(s);
  }

  // A field and what follows it.
  function FieldTail(kw: seq<string>, f: Field, variant: bool, rest: string): string {
    if variant && f.fieldType == Prim(Null) then rest else [':'] + (Print(kw, f.fieldType) + rest)
  }

  lemma FieldText(kw: seq<string>, f: Field, variant: bool, rest: string)
    ensures PrintField(kw, f, variant) + rest == EscapeName(kw, f.name) + FieldTail(kw, f, variant, rest)
  {
    if variant && f.fieldType == Prim(Null) {
      assert PrintField(kw, f, variant) == EscapeName(kw, f.name) + "";
    } else {
      Associates(EscapeName(kw, f.name), ":" + Print(kw, f.fieldType), rest);
      Associates(":", Print(kw, f.fieldType), rest);
    }
  }

  /** What may come after a field. */
  predicate EndsField(rest: string) {
    rest != "" && (rest[0] == '}' || rest[0] == ';')
  }

  lemma {:induction false} FieldReads(kw: seq<string>, raw: char -> bool, f: Field, variant: bool, rest: string)
    requires Reserves(kw) && EndsField(rest)
    ensures ReadField(kw, raw, PrintField(kw, f, variant) + rest, variant) ==
            if FieldReadable(kw, raw, f) then Some((NormField(f), rest)) else None
    decreases f, 2
  {
    var tail := FieldTail(kw, f, variant, rest);
    FieldText(kw, f, variant, rest);
    NameStarts(kw, f.name, tail);
    NameReads(kw, f.name, tail, raw);
    if variant && f.fieldType == Prim(Null) {
      SkipNothing(rest);
    } else {
      AfterSign(':', ':', Print(kw, f.fieldType) + rest);
      TypeReads(kw, raw, f.fieldType, rest);
    }
  }

  // How a non-empty list goes on after its first element.
  function ListTail(one: bool, sep: char, close: char, more: string, rest: string): string {
    if one then [close] + rest else [sep] + ([' '] + (more + rest))
  }

  lemma TailText(first: string, one: bool, sep: char, close: char, more: string, rest: string)
    ensures (first + (if one then [close] else [sep, ' '] + more)) + rest == first + ListTail(one, sep, close, more, rest)
  {
    Associates(first, if one then [close] else [sep, ' '] + more, rest);
    if !one {
      Associates([sep, ' '], more, rest);
      assert [sep, ' '] + (more + rest) == [sep] + ([' '] + (more + rest));
    }
  }

  lemma TailSigns(one: bool, sep: char, close: char, more: string, rest: string)
    requires sep != close && !IsSpace(sep) && !IsSpace(close)
    ensures var tail := ListTail(one, sep, close, more, rest);
            && After(tail, close) == (if one then Some(rest) else None)
            && (!one ==> After(tail, sep) == Some([' '] + (more + rest)))
  {
    if one {
      AfterSign(close, close, rest);
    } else {
      AfterSign(sep, close, [' '] + (more + rest));
      AfterSign(sep, sep, [' '] + (more + rest));
    }
  }

  lemma {:induction false} AllFieldsRead(kw: seq<string>, raw: char -> bool, fields: seq<Field>, variant: bool, rest: string)
    requires Reserves(kw)
    ensures FieldsRead(kw, raw, fields, variant, rest)
    decreases fields, 1
  {
    if fields == [] {
      AfterSign('}', '}', rest);
    } else {
      var one, more := |fields| == 1, if |fields| == 1 then "" else PrintFields(kw, fields[1..], variant);
      var tail := ListTail(one, ';', '}', more, rest);
      FieldReads(kw, raw, fields[0], variant, tail);
      if !one {
        AllFieldsRead(kw, raw, fields[1..], variant, rest);
      }
      FieldsStep(kw, raw, fields, variant, rest);
    }
  }

  lemma FieldsStep(kw: seq<string>, raw: char -> bool, fields: seq<Field>, variant: bool, rest: string)
    requires fields != []
    requires var one, more := |fields| == 1, if |fields| == 1 then "" else PrintFields(kw, fields[1..], variant);
             var tail := ListTail(one, ';', '}', more, rest);
             ReadField(kw, raw, PrintField(kw, fields[0], variant) + tail, variant) ==
             if FieldReadable(kw, raw, fields[0]) then Some((NormField(fields[0]), tail)) else None
    requires |fields| > 1 ==> FieldsRead(kw, raw, fields[1..], variant, rest)
    ensures FieldsRead(kw, raw, fields, variant, rest)
  {
    var one, more := |fields| == 1, if |fields| == 1 then "" else PrintFields(kw, fields[1..], variant);
    var tail := ListTail(one, ';', '}', more, rest);
    TailText(PrintField(kw, fields[0], variant), one, ';', '}', more, rest);
    TailSigns(one, ';', '}', more, rest);
    FieldText(kw, fields[0], variant, tail);
    NameStarts(kw, fields[0].name, FieldTail(kw, fields[0], variant, tail));
    if !one {
      FieldsStart(kw, fields[1..], variant, rest);
      FieldsSkip(kw, raw, [' '] + (more + rest), variant);
    } else {
      assert fields[1..] == [] && NormFields(fields) == [NormField(fields[0])] + [] == [NormField(fields[0])];
      assert FieldsReadable(kw, raw, fields) == FieldReadable(kw, raw, fields[0]);
    }
  }

  lemma FieldsStart(kw: seq<string>, fields: seq<Field>, variant: bool, rest: string)
    requires fields != []
    ensures var s := PrintFields(kw, fields, variant) + rest; Skip([' '] + s) == s
  {
    var one, more := |fields| == 1, if |fields| == 1 then "" else PrintFields(kw, fields[1..], variant);
    var tail := ListTail(one, ';', '}', more, rest);
    TailText(PrintField(kw, fields[0], variant), one, ';', '}', more, rest);
    FieldText(kw, fields[0], variant, tail);
    NameStarts(kw, fields[0].name, FieldTail(kw, fields[0], variant, tail));
  }

  lemma {:induction false} AllTypesRead(
    kw: seq<string>, raw: char -> bool, types: seq<Type>, sep: char, close: char, rest: string)
    requires Reserves(kw) && (sep == ';' || sep == ',') && (close == '}' || close == ')')
    ensures TypesRead(kw, raw, types, sep, close, rest)
    decreases types, 1
  {
    if types == [] {
      AfterSign(close, close, rest);
    } else {
      var one, more := |types| == 1, if |types| == 1 then "" else PrintTypes(kw, types[1..], sep, close);
      TypeReads(kw, raw, types[0], ListTail(one, sep, close, more, rest));
      if one {
        OneTypeStep(kw, raw, types, sep, close, rest);
      } else {
        AllTypesRead(kw, raw, types[1..], sep, close, rest);
        TypesStep(kw, raw, types, sep, close, rest);
      }
    }
  }

  lemma OneTypeStep(kw: seq<string>, raw: char -> bool, types: seq<Type>, sep: char, close: char, rest: string)
    requires |types| == 1 && !IsSpace(sep) && !IsSpace(close) && sep != close
    requires Reads(kw, raw, types[0], ListTail(true, sep, close, "", rest)) && !('a' <= close <= 'z')
    ensures TypesRead(kw, raw, types, sep, close, rest)
  {
    var tail := ListTail(true, sep, close, "", rest);
    TailText(Print(kw, types[0]), true, sep, close, "", rest);
    TailSigns(true, sep, close, "", rest);
    PrintStarts(kw, types[0], tail);
    assert types[1..] == [] && NormTypes(types) == [Norm(types[0])] + [] == [Norm(types[0])];
    assert TypesReadable(kw, raw, types) == TypeReadable(kw, raw, types[0]);
  }

  lemma TypesStep(kw: seq<string>, raw: char -> bool, types: seq<Type>, sep: char, close: char, rest: string)
    requires |types| > 1 && !IsSpace(sep) && !IsSpace(close) && sep != close && !('a' <= close <= 'z')
    requires Reads(kw, raw, types[0], ListTail(false, sep, close, PrintTypes(kw, types[1..], sep, close), rest))
    requires TypesRead(kw, raw, types[1..], sep, close, rest)
    ensures TypesRead(kw, raw, types, sep, close, rest)
  {
    var more := PrintTypes(kw, types[1..], sep, close);
    var tail := ListTail(false, sep, close, more, rest);
    TailText(Print(kw, types[0]), false, sep, close, more, rest);
    TailSigns(false, sep, close, more, rest);
    PrintStarts(kw, types[0], tail);
    TypesStart(kw, types[1..], sep, close, rest);
    TypesSkip(kw, raw, [' '] + (more + rest), sep, close);
  }

  lemma TypesStart(kw: seq<string>, types: seq<Type>, sep: char, close: char, rest: string)
    requires types != []
    ensures var s := PrintTypes(kw, types, sep, close) + rest; s != "" && 'a' <= s[0] <= 'z' && Skip(s) == s && Skip([' '] + s) == s
  {
    var one, more := |types| == 1, if |types| == 1 then "" else PrintTypes(kw, types[1..], sep, close);
    TailText(Print(kw, types[0]), one, sep, close, more, rest);
    PrintStarts(kw, types[0], ListTail(one, sep, close, more, rest));
  }

  lemma RecordReads(kw: seq<string>, raw: char -> bool, t: Type, rest: string)
    requires t.Record? && Delimited(rest) && FieldsRead(kw, raw, t.fields, false, rest)
    ensures Reads(kw, raw, t, rest)
  {
    var body := PrintFields(kw, t.fields, false);
    BodyReads(kw, raw, t, body, rest);
    if t.fields == [] {
      AfterSign('}', '}', rest);
    } else {
      FieldsAreNamed(kw, t.fields, rest);
    }
    assert After(body + rest, '}').Some? || StartsName(kw, Skip(body + rest));
  }

  lemma FieldsAreNamed(kw: seq<string>, fields: seq<Field>, rest: string)
    requires fields != []
    ensures var s := PrintFields(kw, fields, false) + rest; StartsName(kw, Skip(s))
  {
    var one, more := |fields| == 1, if |fields| == 1 then "" else PrintFields(kw, fields[1..], false);
    var tail := ListTail(one, ';', '}', more, rest);
    TailText(PrintField(kw, fields[0], false), one, ';', '}', more, rest);
    FieldText(kw, fields[0], false, tail);
    NameStarts(kw, fields[0].name, FieldTail(kw, fields[0], false, tail));
  }

  lemma NothingReads(kw: seq<string>, raw: char -> bool, rest: string)
    ensures ReadRecord(kw, raw, ['}'] + rest) == Some((Record([]), rest))
  {
    AfterSign('}', '}', rest);
  }

  lemma TupleReads(kw: seq<string>, raw: char -> bool, t: Type, rest: string)
    requires Reserves(kw) && t.Tuple? && Delimited(rest) && TypesRead(kw, raw, t.components, ';', '}', rest)
    ensures Reads(kw, raw, t, rest)
  {
    BodyReads(kw, raw, t, PrintTypes(kw, t.components, ';', '}'), rest);
    if t.components == [] {
      NothingReads(kw, raw, rest);
    } else {
      TypesAreUnnamed(kw, t.components, rest);
    }
  }

  lemma TypesAreUnnamed(kw: seq<string>, types: seq<Type>, rest: string)
    requires Reserves(kw) && types != []
    ensures var s := PrintTypes(kw, types, ';', '}') + rest; !StartsName(kw, Skip(s)) && After(s, '}').None?
  {
    var one, more := |types| == 1, if |types| == 1 then "" else PrintTypes(kw, types[1..], ';', '}');
    TailText(Print(kw, types[0]), one, ';', '}', more, rest);
    FirstWord(kw, types[0], ListTail(one, ';', '}', more, rest));
    TypesStart(kw, types, ';', '}', rest);
  }

  // ---------- Functions ----------

  lemma AnnotationReads(a: Annotation, later: string)
    requires EndsId(later)
    ensures var (more, rest) := ReadAnnotations(later); ReadAnnotations([' '] + (Word(a) + later)) == ([a] + more, rest)
  {
    WordIsRead(a, later);
  }

  lemma NoAnnotationReads(rest: string)
    requires Delimited(rest)
    ensures ReadAnnotations(rest) == ([], rest)
  {
    SkipNothing(rest);
  }

  lemma {:induction false} AnnotationsRead(annotations: seq<Annotation>, rest: string)
    requires Delimited(rest)
    ensures ReadAnnotations(PrintAnnotations(annotations) + rest) == (annotations, rest)
  {
    if annotations == [] {
      assert PrintAnnotations(annotations) + rest == rest;
      NoAnnotationReads(rest);
    } else {
      AnnotationsRead(annotations[1..], rest);
      AnnotationText(annotations, rest);
      AnnotationReads(annotations[0], PrintAnnotations(annotations[1..]) + rest);
      assert annotations == [annotations[0]] + annotations[1..];
    }
  }

  lemma AnnotationText(annotations: seq<Annotation>, rest: string)
    requires annotations != [] && Delimited(rest)
    ensures var later := PrintAnnotations(annotations[1..]) + rest;
            PrintAnnotations(annotations) + rest == [' '] + (Word(annotations[0]) + later) && EndsId(later)
  {
    var word, more := Word(annotations[0]), PrintAnnotations(annotations[1..]);
    Associates([' '], word + more, rest);
    Associates(word, more, rest);
    AnnotationsEndIds(annotations[1..], rest);
  }

  lemma AnnotationsEndIds(annotations: seq<Annotation>, rest: string)
    requires Delimited(rest)
    ensures EndsId(PrintAnnotations(annotations) + rest)
  {
    assert "" + rest == rest;
  }

  lemma WordIsRead(a: Annotation, later: string)
    requires EndsId(later)
    ensures Skip([' '] + (Word(a) + later)) == Word(a) + later
    ensures IdRun(Word(a) + later) == Word(a) && (Word(a) + later)[|Word(a)|..] == later
    ensures Find(Word(a), ANNOTATIONS) == Some(a)
  {
    var w := Word(a);
    assert w[0] != ' ' && forall i :: 0 <= i < |w| ==> IsIdChar(w[i]);
    AllIdCharsFrom(w);
    IdRunOfId(w, later);
    SkipNothing(w + later);
    assert ANNOTATIONS[1..] == [("oneway", Oneway)] && "query"[0] == 'q' && "oneway"[0] == 'o';
  }

  // What follows the arguments of a function, and what follows its results.
  function AnnotationsText(f: Type, rest: string): string
    requires f.Func?
  {
    PrintAnnotations(f.annotations) + rest
  }

  function ArrowText(kw: seq<string>, f: Type, rest: string): string
    requires f.Func?
  {
    ['>'] + ([' ', '('] + (PrintTypes(kw, f.rets, ',', ')') + AnnotationsText(f, rest)))
  }

  lemma FuncText(kw: seq<string>, f: Type, rest: string)
    requires f.Func?
    ensures PrintRest(kw, f) + rest == [' ', '('] + (PrintTypes(kw, f.args, ',', ')') + ([' ', '-'] + ArrowText(kw, f, rest)))
  {
    RegroupFunc(PrintTypes(kw, f.args, ',', ')'), PrintTypes(kw, f.rets, ',', ')'), PrintAnnotations(f.annotations), rest);
  }

  lemma RegroupFunc(args: string, rets: string, annotations: string, rest: string)
    ensures (" (" + (args + (" -> (" + (rets + annotations)))) + rest ==
            [' ', '('] + (args + ([' ', '-'] + (['>'] + ([' ', '('] + (rets + (annotations + rest))))))
  {
    Associates(rets, annotations, rest);
    Associates(" -> (", rets + annotations, rest);
    Associates(args, " -> (" + (rets + annotations), rest);
    Associates(" (", args + (" -> (" + (rets + annotations)), rest);
    Arrow(rets + (annotations + rest));
  }

  lemma Arrow(later: string)
    ensures " -> (" + later == [' ', '-'] + (['>'] + ([' ', '('] + later))
  {
  }

  lemma ArrowSigns(kw: seq<string>, f: Type, rest: string)
    requires f.Func?
    ensures var arrow := ArrowText(kw, f, rest);
            && After([' ', '-'] + arrow, '-') == Some(arrow) && arrow != "" && arrow[0] == '>'
            && After(arrow[1..], '(') == Some(PrintTypes(kw, f.rets, ',', ')') + AnnotationsText(f, rest))
  {
    var later := PrintTypes(kw, f.rets, ',', ')') + AnnotationsText(f, rest);
    AfterSign('-', '-', ArrowText(kw, f, rest));
    assert ArrowText(kw, f, rest)[1..] == [' ', '('] + later;
    AfterSign('(', '(', later);
  }

  lemma FuncBodyReads(kw: seq<string>, raw: char -> bool, f: Type, rest: string)
    requires f.Func? && Delimited(rest)
    requires TypesRead(kw, raw, f.args, ',', ')', [' ', '-'] + ArrowText(kw, f, rest))
    requires TypesRead(kw, raw, f.rets, ',', ')', AnnotationsText(f, rest))
    ensures ReadFunc(kw, raw, PrintRest(kw, f) + rest) == if TypeReadable(kw, raw, f) then Some((Norm(f), rest)) else None
  {
    FuncText(kw, f, rest);
    AfterSign('(', '(', PrintTypes(kw, f.args, ',', ')') + ([' ', '-'] + ArrowText(kw, f, rest)));
    ArrowSigns(kw, f, rest);
    AnnotationsRead(f.annotations, rest);
  }

  lemma FuncReads(kw: seq<string>, raw: char -> bool, f: Type, rest: string)
    requires f.Func? && Delimited(rest)
    requires ReadFunc(kw, raw, PrintRest(kw, f) + rest) == if TypeReadable(kw, raw, f) then Some((Norm(f), rest)) else None
    ensures Reads(kw, raw, f, rest)
  {
    HeadReads(kw, f, rest);
  }

  // ---------- Main results ----------

  /** The reader recovers a printed type, whatever comes after it, if all its names are readable, and
      recovers nothing otherwise. */
  lemma {:induction false} TypeReads(kw: seq<string>, raw: char -> bool, t: Type, rest: string)
    requires Reserves(kw) && Delimited(rest)
    ensures Reads(kw, raw, t, rest)
    decreases t, 2
  {
    match t {
      case Prim(_) =>
        HeadReads(kw, t, rest);
        assert "" + rest == rest;
      case Opt(e) =>
        TypeReads(kw, raw, e, rest);
        ElementReads(kw, raw, t, e, rest);
      case Vec(e) =>
        TypeReads(kw, raw, e, rest);
        ElementReads(kw, raw, t, e, rest);
      case Record(fields) =>
        AllFieldsRead(kw, raw, fields, false, rest);
        RecordReads(kw, raw, t, rest);
      case Tuple(components) =>
        AllTypesRead(kw, raw, components, ';', '}', rest);
        TupleReads(kw, raw, t, rest);
      case Variant(fields) =>
        AllFieldsRead(kw, raw, fields, true, rest);
        VariantReads(kw, raw, t, rest);
      case Func(args, rets, _) =>
        AllTypesRead(kw, raw, args, ',', ')', [' ', '-'] + ArrowText(kw, t, rest));
        AllTypesRead(kw, raw, rets, ',', ')', AnnotationsText(t, rest));
        FuncBodyReads(kw, raw, t, rest);
        FuncReads(kw, raw, t, rest);
    }
  }

  /** The names of the fields in a type. */
  function Names(t: Type): seq<string> {
    match t
    case Prim(_) => []
    case Opt(e) => Names(e)
    case Vec(e) => Names(e)
    case Record(fields) => NamesOfFields(fields)
    case Tuple(components) => NamesOfTypes(components)
    case Variant(fields) => NamesOfFields(fields)
    case Func(args, rets, _) => NamesOfTypes(args) + NamesOfTypes(rets)
  }

  function NamesOfTypes(types: seq<Type>): seq<string> {
    if types == [] then [] else Names(types[0]) + NamesOfTypes(types[1..])
  }

  function NamesOfFields(fields: seq<Field>): seq<string> {
    if fields == [] then [] else NamesOfField(fields[0]) + NamesOfFields(fields[1..])
  }

  function NamesOfField(f: Field): seq<string> {
    [f.name] + Names(f.fieldType)
  }

  predicate AllReadable(kw: seq<string>, raw: char -> bool, names: seq<string>) {
    forall name <- names :: Readable(kw, name, raw)
  }

  lemma AllReadableConcat(kw: seq<string>, raw: char -> bool, a: seq<string>, b: seq<string>)
    ensures AllReadable(kw, raw, a + b) <==> AllReadable(kw, raw, a) && AllReadable(kw, raw, b)
  {
    assert forall name :: name in a + b <==> name in a || name in b;
  }

  lemma {:induction false} NamesDecide(kw: seq<string>, raw: char -> bool, t: Type)
    ensures TypeReadable(kw, raw, t) <==> AllReadable(kw, raw, Names(t))
    decreases t, 1
  {
    match t {
      case Prim(_) =>
      case Opt(e) => NamesDecide(kw, raw, e);
      case Vec(e) => NamesDecide(kw, raw, e);
      case Record(fields) => FieldNamesDecide(kw, raw, fields);
      case Tuple(components) => TypeNamesDecide(kw, raw, components);
      case Variant(fields) => FieldNamesDecide(kw, raw, fields);
      case Func(args, rets, _) =>
        TypeNamesDecide(kw, raw, args);
        TypeNamesDecide(kw, raw, rets);
        AllReadableConcat(kw, raw, NamesOfTypes(args), NamesOfTypes(rets));
    }
  }

  lemma {:induction false} TypeNamesDecide(kw: seq<string>, raw: char -> bool, types: seq<Type>)
    ensures TypesReadable(kw, raw, types) <==> AllReadable(kw, raw, NamesOfTypes(types))
    decreases types, 0
  {
    if types != [] {
      NamesDecide(kw, raw, types[0]);
      TypeNamesDecide(kw, raw, types[1..]);
      AllReadableConcat(kw, raw, Names(types[0]), NamesOfTypes(types[1..]));
    }
  }

  lemma {:induction false} FieldNamesDecide(kw: seq<string>, raw: char -> bool, fields: seq<Field>)
    ensures FieldsReadable(kw, raw, fields) <==> AllReadable(kw, raw, NamesOfFields(fields))
    decreases fields, 0
  {
    if fields != [] {
      FieldNameDecides(kw, raw, fields[0]);
      FieldNamesDecide(kw, raw, fields[1..]);
      AllReadableConcat(kw, raw, NamesOfField(fields[0]), NamesOfFields(fields[1..]));
    }
  }

  lemma {:induction false} FieldNameDecides(kw: seq<string>, raw: char -> bool, f: Field)
    ensures FieldReadable(kw, raw, f) <==> AllReadable(kw, raw, NamesOfField(f))
    decreases f, 2
  {
    NamesDecide(kw, raw, f.fieldType);
    AllReadableConcat(kw, raw, [f.name], Names(f.fieldType));
  }

  /** A reader that follows the specification recovers a printed type, whatever comes after it, up to the
      empty tuple, if no name in it has control characters, and recovers nothing otherwise. */
  lemma CandidTypeReads(t: Type, rest: string)
    requires Delimited(rest)
    ensures ReadType(CANDID_KEYWORDS, CandidRaw, Print(CANDID_KEYWORDS, t) + rest) ==
            if forall name <- Names(t) :: NoControls(name) then Some((Norm(t), rest)) else None
  {
    KeywordsReserved();
    TypeReads(CANDID_KEYWORDS, CandidRaw, t, rest);
    NamesDecide(CANDID_KEYWORDS, CandidRaw, t);
    forall name ensures Readable(CANDID_KEYWORDS, name, CandidRaw) <==> NoControls(name) {
      ReadableIsNoControls(name);
    }
  }

  /** A reader that lets every character pass recovers every type. */
  lemma EveryTypeReads(t: Type)
    ensures ReadType(CANDID_KEYWORDS, AnyChar, Print(CANDID_KEYWORDS, t)) == Some((Norm(t), ""))
  {
    KeywordsReserved();
    TypeReads(CANDID_KEYWORDS, AnyChar, t, "");
    assert Print(CANDID_KEYWORDS, t) + "" == Print(CANDID_KEYWORDS, t);
    NamesDecide(CANDID_KEYWORDS, AnyChar, t);
    forall name <- Names(t) ensures Readable(CANDID_KEYWORDS, name, AnyChar) {
      AllRawAlways(name);
    }
  }

  /** Two types have the same Candid text exactly when they are the same, up to the empty tuple. */
  lemma PrintUnique(a: Type, b: Type)
    ensures Print(CANDID_KEYWORDS, a) == Print(CANDID_KEYWORDS, b) <==> Norm(a) == Norm(b)
  {
    EveryTypeReads(a);
    EveryTypeReads(b);
    NormPrints(CANDID_KEYWORDS, a);
    NormPrints(CANDID_KEYWORDS, b);
  }

  /** Two parameter lists have the same signature text exactly when they are the same. */
  lemma SignatureUnique(a: seq<Type>, b: seq<Type>)
    ensures Signature(CANDID_KEYWORDS, a) == Signature(CANDID_KEYWORDS, b) <==> NormTypes(a) == NormTypes(b)
  {
    var kw := CANDID_KEYWORDS;
    var fa, fb := Func(a, [], []), Func(b, [], []);
    PrintUnique(fa, fb);
    if Signature(kw, a) == Signature(kw, b) {
      assert Signature(kw, a)[..|Signature(kw, a)| - 1] == Print(kw, fa);
      assert Signature(kw, b)[..|Signature(kw, b)| - 1] == Print(kw, fb);
    }
  }
}
