/** The streaming reader of structs in decode.rs: it looks a field up without building a map, relying on
    sorted keys, skipping what comes before and putting the cursor back when the field is not there. */
module StructReader {
  import opened ByteStrings
  import opened Decimal
  import opened Bencode
  import opened BencodeLaws

  /** The loop of `read_field` up to the value; `start` is where the cursor returns to. */
  function SeekFrom(start: Bytes, s: Bytes, name: Bytes): (r: Read<()>)
    requires |s| <= |start|
    ensures |r.rest| <= |start|
    decreases |s|
  {
    if s == [] then Fail(Eof, s)
    else if s[0] == BYTE_E then Fail(MissingField(name), start)
    else
      var (key, s1) :- ReadStr(s);
      if key == name then Ok((), s1)
      else if Less(key, name) then
        var (_, s2) :- SkipItem(s1);
        SeekFrom(start, s2, name)
      else Fail(MissingField(name), start)
  }

  function ReadField<T>(s: Bytes, name: Bytes, decode: Bytes -> Read<T>): Read<T> {
    var (_, s1) :- SeekFrom(s, s, name);
    decode(s1)
  }

  function ReadOption<T>(s: Bytes, name: Bytes, decode: Bytes -> Read<T>): Read<Option<T>> {
    match ReadField(s, name, decode)
    case Ok(t, s1) => Ok(Some(t), s1)
    case Fail(MissingField(_), s1) => Ok(None, s1)
    case Fail(e, s1) => Fail(e, s1)
  }

  // ---- Sorted dictionaries ----

  /** The rest of a dictionary with `es` to come, and what follows it. */
  function Body(es: seq<Entry>, rest: Bytes): Bytes {
    EncodeEntries(es) + ([BYTE_E] + rest)
  }

  /** The entries still ahead of the cursor once `name` has been asked for. */
  function After(es: seq<Entry>, name: Bytes): seq<Entry>
    requires Lookup(es, name).Some?
  {
    if es[0].key == name then es[1..] else After(es[1..], name)
  }

  function Ahead(es: seq<Entry>, name: Bytes): seq<Entry> {
    if Lookup(es, name).Some? then After(es, name) else es
  }

  lemma BodyStarts(es: seq<Entry>, rest: Bytes)
    ensures es == [] ==> Body(es, rest) == [BYTE_E] + rest
    ensures es != [] ==>
              Body(es, rest) == EncodeBytes(es[0].key) + (Encode(es[0].value) + Body(es[1..], rest))
    ensures es != [] && TypedKey(es[0].key) ==> IsDigit(Body(es, rest)[0])
  {
    if es != [] {
      EncodedEntriesAre(es, [BYTE_E] + rest);
      DigitsAreDigits(|es[0].key|);
    }
  }

  lemma SkipEncoded(v: Value, rest: Bytes)
    requires Typed(v)
    ensures SkipItem(Encode(v) + rest) == Ok((), rest)
  {
    DecodeEncode(v, rest);
    SkipFollowsDecode(Encode(v) + rest);
  }

  lemma {:induction false} SkipBody(es: seq<Entry>, rest: Bytes)
    requires Typed(Dict(es))
    ensures SkipPairs(Body(es, rest)) == Ok((), rest)
  {
    DecodeEncodedBody(es, rest);
    SkipFollowsDecodeEntries(Body(es, rest), []);
  }

  /** In a sorted dictionary the reader finds exactly what the map has, stops right at the value, and
      otherwise puts the cursor back. */
  lemma {:induction false} SeekFinds(start: Bytes, es: seq<Entry>, rest: Bytes, name: Bytes)
    requires Typed(Dict(es)) && |Body(es, rest)| <= |start|
    ensures SeekFrom(start, Body(es, rest), name)
         == match Lookup(es, name)
            case Some(v) => Ok((), Encode(v) + Body(After(es, name), rest))
            case None => Fail(MissingField(name), start)
  {
    BodyStarts(es, rest);
    if es != [] {
      var e, later := es[0], Body(es[1..], rest);
      ReadEncodedBytes(e.key, Encode(e.value) + later);
      if Less(e.key, name) {
        LessIsAsymmetric(e.key, name);
        SkipEncoded(e.value, later);
        SeekFinds(start, es[1..], rest, name);
      } else if e.key != name {
        LessIsTotal(e.key, name);
        BeyondIsAbsent(es, name);
      }
    }
  }

  lemma BeyondIsAbsent(es: seq<Entry>, name: Bytes)
    requires Sorted(es) && es != [] && Less(name, es[0].key)
    ensures Lookup(es, name) == None
  {
    LookupIsMembership(es, name, Integer(0));
    forall e | e in es ensures e.key != name {
      LessIsAsymmetric(name, es[0].key);
      if e != es[0] {
        LessIsTransitive(name, es[0].key, e.key);
        LessIsAsymmetric(name, e.key);
      }
    }
  }

  /** Asking for names in increasing order never passes a later one. */
  lemma {:induction false} LaterNamesStayAhead(es: seq<Entry>, name: Bytes, later: Bytes)
    requires Typed(Dict(es)) && Less(name, later)
    ensures Typed(Dict(Ahead(es, name)))
    ensures Lookup(Ahead(es, name), later) == Lookup(es, later)
  {
    LessIsAsymmetric(name, later);
    if es != [] && Lookup(es, name).Some? && es[0].key != name {
      LaterNamesStayAhead(es[1..], name, later);
      LookupIsMembership(es, name, Lookup(es, name).value);
      if Less(later, es[0].key) {
        LessIsTransitive(name, later, es[0].key);
        BeyondIsAbsent(es, name);
        assert false;
      }
      LessIsTotal(later, es[0].key);
      if later == es[0].key {
        BeyondIsAbsent(es, name);
        assert false;
      }
    }
  }

  /** The entries ahead after asking for several names in turn. */
  function AheadOfAll(es: seq<Entry>, names: seq<Bytes>): seq<Entry>
    decreases |names|
  {
    if names == [] then es else AheadOfAll(Ahead(es, names[0]), names[1..])
  }

  /** The results of asking for several names in turn, from wherever the cursor is, and where it ends. */
  function ReadEach(s: Bytes, names: seq<Bytes>): (seq<Result<Value>>, Bytes)
    decreases |names|
  {
    if names == [] then ([], s)
    else
      match ReadField(s, names[0], DecodeValue)
      case Ok(v, s1) =>
        var (results, end) := ReadEach(s1, names[1..]);
        ([Success(v)] + results, end)
      case Fail(e, s1) =>
        var (results, end) := ReadEach(s1, names[1..]);
        ([Failure(e)] + results, end)
  }

  /** What map lookup gives. */
  function ByLookup(es: seq<Entry>, name: Bytes): Result<Value> {
    match Lookup(es, name)
    case Some(v) => Success(Normal(v))
    case None => Failure(MissingField(name))
  }

  function AllByLookup(es: seq<Entry>, names: seq<Bytes>): seq<Result<Value>> {
    if names == [] then [] else [ByLookup(es, names[0])] + AllByLookup(es, names[1..])
  }

  lemma ReadOne(es: seq<Entry>, rest: Bytes, name: Bytes)
    requires Typed(Dict(es))
    ensures ReadField(Body(es, rest), name, DecodeValue)
         == match ByLookup(es, name)
            case Success(v) => Ok(v, Body(Ahead(es, name), rest))
            case Failure(e) => Fail(e, Body(es, rest))
  {
    SeekFinds(Body(es, rest), es, rest, name);
    if Lookup(es, name).Some? {
      LookupIsMembership(es, name, Lookup(es, name).value);
      DecodeEncode(Lookup(es, name).value, Body(After(es, name), rest));
    }
  }

  lemma {:induction false} SameLookupsAhead(es: seq<Entry>, name: Bytes, names: seq<Bytes>)
    requires Typed(Dict(es)) && forall n :: n in names ==> Less(name, n)
    ensures AllByLookup(Ahead(es, name), names) == AllByLookup(es, names)
  {
    if names != [] {
      LaterNamesStayAhead(es, name, names[0]);
      SameLookupsAhead(es, name, names[1..]);
    }
  }

  /** Fields asked for in increasing order of names come out exactly as by map lookup: each name that is there
      gives its value, each other one is missing and leaves the cursor where it was. */
  lemma {:induction false} FieldsInOrder(es: seq<Entry>, rest: Bytes, names: seq<Bytes>)
    requires Typed(Dict(es))
    requires forall i, j :: 0 <= i < j < |names| ==> Less(names[i], names[j])
    ensures ReadEach(Body(es, rest), names) == (AllByLookup(es, names), Body(AheadOfAll(es, names), rest))
    ensures Typed(Dict(AheadOfAll(es, names)))
    ensures forall name :: (forall n :: n in names ==> Less(n, name)) ==>
              Lookup(AheadOfAll(es, names), name) == Lookup(es, name)
    decreases |names|
  {
    if names != [] {
      var es1 := Ahead(es, names[0]);
      ReadOne(es, rest, names[0]);
      AheadIsTyped(es, names[0]);
      SameLookupsAhead(es, names[0], names[1..]);
      FieldsInOrder(es1, rest, names[1..]);
      forall name | forall n :: n in names ==> Less(n, name)
        ensures Lookup(AheadOfAll(es, names), name) == Lookup(es, name)
      {
        LaterNamesStayAhead(es, names[0], name);
        assert forall n :: n in names[1..] ==> n in names;
      }
    }
  }

  lemma {:induction false} AheadIsTyped(es: seq<Entry>, name: Bytes)
    requires Typed(Dict(es))
    ensures Typed(Dict(Ahead(es, name)))
  {
    if Lookup(es, name).Some? && es[0].key != name { AheadIsTyped(es[1..], name); }
  }

  // ---- Any accepted dictionary, unsorted or with repeated keys ----

  /** A field as it stands in the text: its key, and the bytes from its value on. */
  datatype Field = Field(key: Bytes, at: Bytes)

  /** The fields up to the closing byte, in their order. */
  function FieldsOf(s: Bytes): Option<seq<Field>>
    decreases |s|
  {
    if s == [] then None
    else if s[0] == BYTE_E then Some([])
    else
      match ReadStr(s)
      case Fail(_, _) => None
      case Ok(key, s1) =>
        match SkipItem(s1)
        case Fail(_, _) => None
        case Ok(_, s2) =>
          match FieldsOf(s2)
          case Some(fs) => Some([Field(key, s1)] + fs)
          case None => None
  }

  /** The first field whose key is not less than the name, or the number of fields. */
  function FirstNotLess(fs: seq<Field>, name: Bytes): (i: nat)
    ensures i <= |fs| && (i < |fs| ==> !Less(fs[i].key, name))
    ensures forall k :: 0 <= k < i ==> Less(fs[k].key, name)
  {
    if fs == [] || !Less(fs[0].key, name) then 0 else 1 + FirstNotLess(fs[1..], name)
  }

  function LastAt(fs: seq<Field>, name: Bytes): Option<Bytes> {
    if fs == [] then None
    else
      match LastAt(fs[1..], name)
      case Some(at) => Some(at)
      case None => if fs[0].key == name then Some(fs[0].at) else None
  }

  /** One turn of the loop is about the first field. */
  lemma SeekStep(start: Bytes, s: Bytes, name: Bytes)
    requires |s| <= |start| && FieldsOf(s).Some? && s[0] != BYTE_E
    ensures ReadStr(s).Ok? && SkipItem(ReadStr(s).rest).Ok?
    ensures var key, item := ReadStr(s), SkipItem(ReadStr(s).rest);
            && FieldsOf(item.rest).Some?
            && FieldsOf(s).value == [Field(key.value, key.rest)] + FieldsOf(item.rest).value
            && (key.value == name ==> SeekFrom(start, s, name) == Ok((), key.rest))
            && (key.value != name && Less(key.value, name) ==>
                  SeekFrom(start, s, name) == SeekFrom(start, item.rest, name))
            && (key.value != name && !Less(key.value, name) ==>
                  SeekFrom(start, s, name) == Fail(MissingField(name), start))
  {
  }

  /** What the reader does with those fields: it stops before the value of the first one that is not less than
      the name if its key is the name, and otherwise goes back to where it began. */
  function SeekAmong(start: Bytes, fs: seq<Field>, name: Bytes): Read<()> {
    var i := FirstNotLess(fs, name);
    if i < |fs| && fs[i].key == name then Ok((), fs[i].at) else Fail(MissingField(name), start)
  }

  lemma SeekAmongStep(start: Bytes, f: Field, fs: seq<Field>, name: Bytes)
    ensures SeekAmong(start, [f] + fs, name)
         == if f.key == name then Ok((), f.at)
            else if Less(f.key, name) then SeekAmong(start, fs, name)
            else Fail(MissingField(name), start)
  {
    assert ([f] + fs)[1..] == fs;
    LessIsIrreflexive(name);
  }

  /** So it goes whatever the order of the keys. */
  lemma {:induction false} SeekInText(start: Bytes, s: Bytes, name: Bytes)
    requires |s| <= |start| && FieldsOf(s).Some?
    ensures SeekFrom(start, s, name) == SeekAmong(start, FieldsOf(s).value, name)
    decreases |s|
  {
    if s[0] != BYTE_E {
      SeekStep(start, s, name);
      var key := ReadStr(s);
      var later := SkipItem(key.rest).rest;
      SeekAmongStep(start, Field(key.value, key.rest), FieldsOf(later).value, name);
      if Less(key.value, name) { SeekInText(start, later, name); }
    }
  }

  ghost predicate AllDecode(fs: seq<Field>) {
    forall f :: f in fs ==> DecodeValue(f.at).Ok?
  }

  /** One turn of the dictionary loop is one field of the text. */
  lemma EntryIsField(s: Bytes, entries: seq<Entry>)
    requires DecodeEntries(s, entries).Ok? && s[0] != BYTE_E
    ensures ReadStr(s).Ok? && DecodeValue(ReadStr(s).rest).Ok?
    ensures var key, v := ReadStr(s), DecodeValue(ReadStr(s).rest);
            && DecodeEntries(s, entries) == DecodeEntries(v.rest, Insert(entries, key.value, v.value))
            && (FieldsOf(v.rest).Some? ==>
                  FieldsOf(s) == Some([Field(key.value, key.rest)] + FieldsOf(v.rest).value))
  {
    SkipFollowsDecode(ReadStr(s).rest);
  }

  lemma {:induction false} AcceptedHasFields(s: Bytes, entries: seq<Entry>)
    requires DecodeEntries(s, entries).Ok?
    ensures FieldsOf(s).Some? && AllDecode(FieldsOf(s).value)
    decreases |s|
  {
    if s[0] != BYTE_E {
      EntryIsField(s, entries);
      var key, v := ReadStr(s), DecodeValue(ReadStr(s).rest);
      AcceptedHasFields(v.rest, Insert(entries, key.value, v.value));
    }
  }

  lemma LastAtOf(f: Field, fs: seq<Field>, name: Bytes)
    ensures LastAt([f] + fs, name) == match LastAt(fs, name)
                                      case Some(at) => Some(at)
                                      case None => if f.key == name then Some(f.at) else None
  {
    assert ([f] + fs)[1..] == fs;
  }

  lemma {:induction false} LastIsAField(fs: seq<Field>, name: Bytes)
    requires LastAt(fs, name).Some?
    ensures Field(name, LastAt(fs, name).value) in fs
  {
    if LastAt(fs[1..], name).Some? { LastIsAField(fs[1..], name); }
  }

  /** The value of the last field with that name, else what is there already. */
  function LastValue(fs: seq<Field>, name: Bytes, before: Option<Value>): Option<Value>
    requires AllDecode(fs)
  {
    match LastAt(fs, name)
    case Some(at) => LastIsAField(fs, name); Some(DecodeValue(at).value)
    case None => before
  }

  /** The tree decoder has the last value of each key. */
  lemma {:induction false} TreeHasLast(s: Bytes, entries: seq<Entry>, name: Bytes)
    requires DecodeEntries(s, entries).Ok? && Sorted(entries)
    ensures FieldsOf(s).Some? && AllDecode(FieldsOf(s).value)
    ensures Lookup(DecodeEntries(s, entries).value, name)
         == LastValue(FieldsOf(s).value, name, Lookup(entries, name))
    decreases |s|
  {
    AcceptedHasFields(s, entries);
    if s[0] != BYTE_E {
      EntryIsField(s, entries);
      var key, v := ReadStr(s), DecodeValue(ReadStr(s).rest);
      var next := Insert(entries, key.value, v.value);
      InsertIntoSorted(entries, key.value, v.value);
      LookupInsert(entries, key.value, v.value, name);
      TreeHasLast(v.rest, next, name);
      LastAtOf(Field(key.value, key.rest), FieldsOf(v.rest).value, name);
    }
  }

  /** `read_field` gives what the map has. */
  predicate AgreesWith(r: Read<Value>, found: Option<Value>) {
    match r
    case Ok(v, _) => found == Some(v)
    case Fail(_, _) => found == None
  }

  /** The first field that is not less than the name has it, with the value of the last one that has it. */
  ghost predicate FirstIsLast(fs: seq<Field>, name: Bytes)
    requires AllDecode(fs)
  {
    var i := FirstNotLess(fs, name);
    i < |fs| && fs[i].key == name && LastValue(fs, name, None) == Some(DecodeValue(fs[i].at).value)
  }

  /** On any accepted dictionary `read_field` agrees with map lookup exactly when no field has the name, or its
      first place comes before every greater key and has the same value as its last place. */
  lemma ReadFieldAgreesIff(s: Bytes, name: Bytes)
    requires DecodeEntries(s, []).Ok?
    ensures FieldsOf(s).Some? && AllDecode(FieldsOf(s).value)
    ensures AgreesWith(ReadField(s, name, DecodeValue), Lookup(DecodeEntries(s, []).value, name))
       <==> LastAt(FieldsOf(s).value, name) == None || FirstIsLast(FieldsOf(s).value, name)
  {
    TreeHasLast(s, [], name);
    SeekInText(s, s, name);
    var fs := FieldsOf(s).value;
    var i := FirstNotLess(fs, name);
    if LastAt(fs, name) == None && i < |fs| { NotLast(fs, name, i); }
    if i < |fs| { assert fs[i] in fs; }
  }

  lemma {:induction false} NotLast(fs: seq<Field>, name: Bytes, i: nat)
    requires LastAt(fs, name) == None && i < |fs|
    ensures fs[i].key != name
  {
    if i > 0 { NotLast(fs[1..], name, i - 1); }
  }
}
