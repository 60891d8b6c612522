/** The `Encoder` of encode.rs: a byte vector that every write appends to. */
module EncoderClass {
  import opened ByteStrings
  import opened Decimal
  import opened Bencode

  lemma {:induction false} EncodeItemsSnoc(items: seq<Value>, v: Value)
    ensures EncodeItems(items + [v]) == EncodeItems(items) + Encode(v)
  {
    if items == [] {
      assert (items + [v])[1..] == [];
    } else {
      EncodeItemsSnoc(items[1..], v);
      assert (items + [v])[1..] == items[1..] + [v];
      Assoc(Encode(items[0]), EncodeItems(items[1..]), Encode(v));
    }
  }

  lemma {:induction false} EncodeEntriesSnoc(es: seq<Entry>, e: Entry)
    ensures EncodeEntries(es + [e]) == EncodeEntries(es) + (EncodeBytes(e.key) + Encode(e.value))
  {
    if es == [] {
      assert (es + [e])[1..] == [];
    } else {
      EncodeEntriesSnoc(es[1..], e);
      assert (es + [e])[1..] == es[1..] + [e];
      var first := EncodeBytes(es[0].key) + Encode(es[0].value);
      Assoc(first, EncodeEntries(es[1..]), EncodeBytes(e.key) + Encode(e.value));
    }
  }

  class Encoder {
    var data: Bytes

    constructor ()
      ensures data == []
    {
      data := [];
    }

    method WriteByte(b: byte)
      modifies this
      ensures data == old(data) + [b]
    {
      data := data + [b];
    }

    method Write(b: Bytes)
      modifies this
      ensures data == old(data) + b
    {
      data := data + b;
    }

    method WriteNumber(n: int)
      modifies this
      ensures data == old(data) + Format(n)
    {
      Write(Format(n));
    }

    method WriteInteger(n: int)
      modifies this
      ensures data == old(data) + Encode(Integer(n))
    {
      WriteByte(BYTE_I);
      WriteNumber(n);
      WriteByte(BYTE_E);
    }

    method WriteBytes(b: Bytes)
      modifies this
      ensures data == old(data) + EncodeBytes(b)
    {
      WriteNumber(|b|);
      WriteByte(COLON);
      Write(b);
    }

    method WriteDict(es: seq<Entry>)
      modifies this
      ensures data == old(data) + Encode(Dict(es))
      decreases es, 0
    {
      WriteByte(BYTE_D);
      ghost var start := data;
      for i := 0 to |es|
        invariant data == start + EncodeEntries(es[..i])
      {
        assert es[..i + 1] == es[..i] + [es[i]];
        EncodeEntriesSnoc(es[..i], es[i]);
        ghost var before := data;
        WriteBytes(es[i].key);
        EncodeValue(es[i].value);
        Assoc(before, EncodeBytes(es[i].key), Encode(es[i].value));
        Assoc(start, EncodeEntries(es[..i]), EncodeBytes(es[i].key) + Encode(es[i].value));
      }
      WriteByte(BYTE_E);
      assert es[..|es|] == es;
      Assoc(old(data), [BYTE_D], EncodeEntries(es));
      Assoc(old(data), [BYTE_D] + EncodeEntries(es), [BYTE_E]);
    }

    method WriteList(items: seq<Value>)
      modifies this
      ensures data == old(data) + Encode(List(items))
      decreases items, 0
    {
      WriteByte(BYTE_L);
      ghost var start := data;
      for i := 0 to |items|
        invariant data == start + EncodeItems(items[..i])
      {
        assert items[..i + 1] == items[..i] + [items[i]];
        EncodeItemsSnoc(items[..i], items[i]);
        EncodeValue(items[i]);
        Assoc(start, EncodeItems(items[..i]), Encode(items[i]));
      }
      WriteByte(BYTE_E);
      assert items[..|items|] == items;
      Assoc(old(data), [BYTE_L], EncodeItems(items));
      Assoc(old(data), [BYTE_L] + EncodeItems(items), [BYTE_E]);
    }

    method EncodeValue(v: Value)
      modifies this
      ensures data == old(data) + Encode(v)
      decreases v, 1
    {
      match v
      case Integer(i) => WriteInteger(i);
      case Raw(b) => WriteBytes(b);
      case Text(t) => WriteBytes(t);
      case List(items) => WriteList(items);
      case Dict(es) => WriteDict(es);
    }
  }
}
