/** DMAP metadata: a four-byte tag, a big-endian 32-bit length and that many
    bytes of payload, entry after entry. */
module Dmap {
  import opened Numbers

  type Bytes = seq<byte>

  datatype Entry = Entry(tag: Bytes, payload: Bytes)

  /** Payloads stay bytes here; the receiver converts them to text lossily. */
  datatype TrackMetadata = TrackMetadata(title: Option<Bytes>, artist: Option<Bytes>, album: Option<Bytes>)

  const MLIT: Bytes := [0x6D, 0x6C, 0x69, 0x74]
  const MINM: Bytes := [0x6D, 0x69, 0x6E, 0x6D]
  const ASAR: Bytes := [0x61, 0x73, 0x61, 0x72]
  const ASAL: Bytes := [0x61, 0x73, 0x61, 0x6C]

  predicate Spells(b: Bytes, s: string) {
    |b| == |s| && forall i :: 0 <= i < |s| ==> b[i] == s[i] as int
  }

  /** The tag codes on the wire. */
  lemma TagCodes()
    ensures Spells(MLIT, "mlit") && Spells(MINM, "minm") && Spells(ASAR, "asar") && Spells(ASAL, "asal")
  {
  }

  /** Lengths are big-endian. */
  lemma BigEndian(b: Bytes)
    requires |b| == 4
    ensures Be32(b) == b[0] as int * 0x100_0000 + b[1] as int * 0x1_0000 + b[2] as int * 0x100 + b[3]
  {
  }

  function Be32(b: Bytes): nat
    requires |b| == 4
  {
    ((b[0] as int * 0x100 + b[1]) * 0x100 + b[2]) * 0x100 + b[3]
  }

  function ToBe32(n: u32): (b: Bytes)
    ensures |b| == 4 && Be32(b) == n
  {
    var n1 := n / 0x100;
    var n2 := n1 / 0x100;
    [n2 / 0x100, n2 % 0x100, n1 % 0x100, n % 0x100]
  }

  /** The first entry cannot be complete: no room for its header or payload. */
  predicate Stuck(data: Bytes) {
    |data| < 8 || Be32(data[4..8]) > |data| - 8
  }

  function First(data: Bytes): (e: Entry)
    requires !Stuck(data)
    ensures WellFormed(e)
  {
    Entry(data[..4], data[8..8 + Be32(data[4..8])])
  }

  function Rest(data: Bytes): (r: Bytes)
    requires !Stuck(data)
    ensures |r| < |data|
  {
    data[8 + Be32(data[4..8])..]
  }

  /** The entries one level of a walk visits. */
  function Walk(data: Bytes): (es: seq<Entry>)
    ensures forall i :: 0 <= i < |es| ==> WellFormed(es[i])
    decreases |data|
  {
    if Stuck(data) then [] else [First(data)] + Walk(Rest(data))
  }

  /** What the walk leaves unread. */
  function Leftover(data: Bytes): (r: Bytes)
    ensures Stuck(r)
    decreases |data|
  {
    if Stuck(data) then data else Leftover(Rest(data))
  }

  predicate WellFormed(e: Entry) {
    |e.tag| == 4 && |e.payload| < 0x1_0000_0000
  }

  function Encode(e: Entry): Bytes
    requires WellFormed(e)
  {
    e.tag + ToBe32(|e.payload|) + e.payload
  }

  function EncodeAll(es: seq<Entry>): Bytes
    requires forall i :: 0 <= i < |es| ==> WellFormed(es[i])
  {
    if es == [] then [] else Encode(es[0]) + EncodeAll(es[1..])
  }

  lemma EncodedIsFirst(e: Entry, more: Bytes)
    requires WellFormed(e)
    ensures !Stuck(Encode(e) + more) && First(Encode(e) + more) == e && Rest(Encode(e) + more) == more
  {
    var data := Encode(e) + more;
    hide ToBe32, Be32;
    assert data[..4] == e.tag;
    assert data[4..8] == ToBe32(|e.payload|);
    assert data[8..8 + |e.payload|] == e.payload;
    assert data[8 + |e.payload|..] == more;
  }

  /** Walking an encoded list, followed by anything too short to be a further
      entry, visits exactly that list. */
  lemma {:induction false} WalkVisitsEncoded(es: seq<Entry>, tail: Bytes)
    requires Stuck(tail) && forall i :: 0 <= i < |es| ==> WellFormed(es[i])
    ensures Walk(EncodeAll(es) + tail) == es && Leftover(EncodeAll(es) + tail) == tail
  {
    if es == [] {
      assert EncodeAll(es) + tail == tail;
    } else {
      var more := EncodeAll(es[1..]) + tail;
      assert EncodeAll(es) + tail == Encode(es[0]) + more;
      EncodedIsFirst(es[0], more);
      WalkVisitsEncoded(es[1..], tail);
    }
  }

  /** And every input is of that form, in one way: the walk loses nothing but an
      incomplete end. */
  lemma {:induction false} WalkIsFaithful(data: Bytes)
    ensures data == EncodeAll(Walk(data)) + Leftover(data)
    decreases |data|
  {
    if !Stuck(data) {
      WalkIsFaithful(Rest(data));
      FirstIsEncoded(data);
    }
  }

  lemma Be32Unique(b: Bytes)
    requires |b| == 4
    ensures Be32(b) < 0x1_0000_0000 && ToBe32(Be32(b)) == b
  {
    var n2 := b[0] as int * 0x100 + b[1];
    var n1 := n2 * 0x100 + b[2];
    assert Be32(b) == n1 * 0x100 + b[3];
    assert Be32(b) / 0x100 == n1 && n1 / 0x100 == n2;
  }

  lemma FirstIsEncoded(data: Bytes)
    requires !Stuck(data)
    ensures data == Encode(First(data)) + Rest(data)
  {
    Be32Unique(data[4..8]);
    hide ToBe32, Be32;
    var n := Be32(data[4..8]);
    assert data == data[..4] + data[4..8] + data[8..8 + n] + data[8 + n..];
  }

  /** The walk as the receiver does it: a slice moving forward. */
  method WalkSlice(input: Bytes) returns (entries: seq<Entry>)
    ensures entries == Walk(input)
  {
    var data := input;
    entries := [];
    while |data| >= 8
      invariant Walk(input) == entries + Walk(data)
      decreases |data|
    {
      var tag, len, rest := data[..4], Be32(data[4..8]), data[8..];
      if len > |rest| {
        return;
      }
      assert First(data) == Entry(tag, rest[..len]);
      assert Rest(data) == rest[len..];
      entries := entries + [Entry(tag, rest[..len])];
      data := rest[len..];
    }
  }

  // ----- Track metadata -----

  /** The entries of all `mlit` containers, in order. */
  function Listed(entries: seq<Entry>): seq<Entry> {
    if entries == [] then []
    else
      var e := entries[|entries| - 1];
      Listed(entries[..|entries| - 1]) + if e.tag == MLIT then Walk(e.payload) else []
  }

  predicate HasContainer(entries: seq<Entry>) {
    exists i :: 0 <= i < |entries| && entries[i].tag == MLIT
  }

  /** The payload of the last entry with a tag. */
  function LastOf(entries: seq<Entry>, tag: Bytes): Option<Bytes> {
    if entries == [] then None
    else
      var e := entries[|entries| - 1];
      if e.tag == tag then Some(e.payload) else LastOf(entries[..|entries| - 1], tag)
  }

  /** It is the payload of an entry with the tag after which there is no other. */
  lemma {:induction false} LastOfIff(entries: seq<Entry>, tag: Bytes)
    ensures match LastOf(entries, tag)
            case Some(p) => exists i :: IsLast(entries, tag, i) && entries[i].payload == p
            case None => forall i :: 0 <= i < |entries| ==> entries[i].tag != tag
  {
    if entries != [] {
      var init := entries[..|entries| - 1];
      LastOfIff(init, tag);
      if entries[|entries| - 1].tag == tag {
        assert IsLast(entries, tag, |entries| - 1);
      } else if LastOf(init, tag).Some? {
        var i :| IsLast(init, tag, i) && init[i].payload == LastOf(init, tag).value;
        assert IsLast(entries, tag, i);
      }
    }
  }

  predicate IsLast(entries: seq<Entry>, tag: Bytes, i: int) {
    && 0 <= i < |entries| && entries[i].tag == tag
    && forall j :: i < j < |entries| ==> entries[j].tag != tag
  }

  lemma {:induction false} LastOfConcat(a: seq<Entry>, b: seq<Entry>, tag: Bytes)
    ensures LastOf(a + b, tag) == if LastOf(b, tag).Some? then LastOf(b, tag) else LastOf(a, tag)
  {
    if b == [] {
      assert a + b == a;
    } else {
      assert (a + b)[..|a + b| - 1] == a + b[..|b| - 1];
      LastOfConcat(a, b[..|b| - 1], tag);
    }
  }

  /** A later container overrides what it states and nothing else; other entries
      state nothing. */
  lemma LaterContainerWins(entries: seq<Entry>, e: Entry, tag: Bytes)
    ensures LastOf(Listed(entries + [e]), tag)
         == if e.tag == MLIT && LastOf(Walk(e.payload), tag).Some? then LastOf(Walk(e.payload), tag)
            else LastOf(Listed(entries), tag)
  {
    assert (entries + [e])[..|entries|] == entries;
    if e.tag == MLIT {
      LastOfConcat(Listed(entries), Walk(e.payload), tag);
    } else {
      assert Listed(entries) + [] == Listed(entries);
    }
  }

  function Stated(entries: seq<Entry>): TrackMetadata {
    TrackMetadata(LastOf(entries, MINM), LastOf(entries, ASAR), LastOf(entries, ASAL))
  }

  lemma StatedNext(entries: seq<Entry>, e: Entry)
    ensures Stated(entries + [e])
         == if e.tag == MINM then Stated(entries).(title := Some(e.payload))
            else if e.tag == ASAR then Stated(entries).(artist := Some(e.payload))
            else if e.tag == ASAL then Stated(entries).(album := Some(e.payload))
            else Stated(entries)
  {
    assert (entries + [e])[..|entries|] == entries;
  }

  /** One container's fields, on top of what earlier ones stated. */
  method ReadContainer(payload: Bytes, start: TrackMetadata, ghost before: seq<Entry>) returns (m: TrackMetadata)
    requires start == Stated(before)
    ensures m == Stated(before + Walk(payload))
  {
    var inner := WalkSlice(payload);
    m := start;
    assert before + inner[..0] == before;
    for j := 0 to |inner|
      invariant m == Stated(before + inner[..j])
    {
      assert before + inner[..j + 1] == (before + inner[..j]) + [inner[j]];
      StatedNext(before + inner[..j], inner[j]);
      hide Stated;
      if inner[j].tag == MINM {
        m := m.(title := Some(inner[j].payload));
      } else if inner[j].tag == ASAR {
        m := m.(artist := Some(inner[j].payload));
      } else if inner[j].tag == ASAL {
        m := m.(album := Some(inner[j].payload));
      }
    }
    assert inner[..|inner|] == inner;
  }

  /** Parsing yields the last value of each wanted tag across all containers, and
      nothing at all exactly if there is no container. */
  method Parse(body: Bytes) returns (meta: Option<TrackMetadata>)
    ensures meta == if HasContainer(Walk(body)) then Some(Stated(Listed(Walk(body)))) else None
  {
    var entries := WalkSlice(body);
    meta := None;
    assert Stated([]) == TrackMetadata(None, None, None);
    hide Stated, Walk;
    for i := 0 to |entries|
      invariant meta == if HasContainer(entries[..i]) then Some(Stated(Listed(entries[..i]))) else None
      invariant !HasContainer(entries[..i]) ==> Listed(entries[..i]) == []
    {
      assert entries[..i + 1][..i] == entries[..i];
      ContainerNext(entries[..i], entries[i]);
      assert entries[..i + 1] == entries[..i] + [entries[i]];
      if entries[i].tag == MLIT {
        var m := if meta.Some? then meta.value else TrackMetadata(None, None, None);
        m := ReadContainer(entries[i].payload, m, Listed(entries[..i]));
        meta := Some(m);
      } else {
        assert Listed(entries[..i]) + [] == Listed(entries[..i]);
      }
    }
    assert entries[..|entries|] == entries;
  }

  lemma ContainerNext(entries: seq<Entry>, e: Entry)
    ensures HasContainer(entries + [e]) <==> HasContainer(entries) || e.tag == MLIT
  {
    if e.tag == MLIT {
      assert (entries + [e])[|entries|].tag == MLIT;
    }
    if HasContainer(entries) {
      var i :| 0 <= i < |entries| && entries[i].tag == MLIT;
      assert (entries + [e])[i].tag == MLIT;
    }
  }

  /** A sender's statement of a track: the fields it has, in one container. */
  function Field(tag: Bytes, value: Option<Bytes>): seq<Entry> {
    if value.Some? then [Entry(tag, value.value)] else []
  }

  function Statement(m: TrackMetadata): seq<Entry> {
    Field(MINM, m.title) + Field(ASAR, m.artist) + Field(ASAL, m.album)
  }

  predicate Encodable(m: TrackMetadata) {
    && (forall i :: 0 <= i < |Statement(m)| ==> WellFormed(Statement(m)[i]))
    && |EncodeAll(Statement(m))| < 0x1_0000_0000
  }

  /** What a sender states is what is parsed, truncated ends and all. */
  lemma StatementRoundTrip(m: TrackMetadata, tail: Bytes)
    requires Encodable(m) && Stuck(tail)
    ensures var body := Encode(Entry(MLIT, EncodeAll(Statement(m)))) + tail;
            HasContainer(Walk(body)) && Stated(Listed(Walk(body))) == m
  {
    var container := Entry(MLIT, EncodeAll(Statement(m)));
    assert EncodeAll([container]) == Encode(container) + [] by {
      assert [container][1..] == [];
    }
    assert EncodeAll([container]) + tail == Encode(container) + tail;
    WalkVisitsEncoded([container], tail);
    WalkVisitsEncoded(Statement(m), []);
    assert EncodeAll(Statement(m)) + [] == EncodeAll(Statement(m));
    assert [container][..0] == [];
    assert Listed([container]) == Statement(m);
    assert [container][0].tag == MLIT;
    StatedOfStatement(m);
  }

  lemma StatedOfStatement(m: TrackMetadata)
    ensures Stated(Statement(m)) == m
  {
    var none: seq<Entry> := [];
    var s1 := none + Field(MINM, m.title);
    var s2 := s1 + Field(ASAR, m.artist);
    if m.title.Some? { StatedNext(none, Entry(MINM, m.title.value)); } else { assert s1 == none; }
    if m.artist.Some? { StatedNext(s1, Entry(ASAR, m.artist.value)); } else { assert s2 == s1; }
    if m.album.Some? { StatedNext(s2, Entry(ASAL, m.album.value)); } else { assert s2 + [] == s2; }
    assert Statement(m) == s2 + Field(ASAL, m.album);
  }
}
