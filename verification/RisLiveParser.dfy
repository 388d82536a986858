/** From a RIS Live message to events (src/parser/ris_live_parser.cpp), starting from the JSON tree. */
module RisLiveParser {
  import opened Base
  import opened PeerRegistry

  /** A JSON value; only unsigned integers matter among the numbers. */
  datatype Json =
    | Null
    | Bool(b: bool)
    | Unsigned(n: uint64)
    | OtherNumber
    | Str(s: string)
    | Arr(items: seq<Json>)
    | Obj(fields: map<string, Json>)

  /** A raw message: text that is no JSON, or a JSON document. */
  datatype Message = Malformed | Document(root: Json)

  datatype EventType = AnnounceEvent | WithdrawEvent

  /** The arguments of one call of the event callback. */
  datatype ParsedEvent = ParsedEvent(
    eventType: EventType, peer: PeerInfo, prefix: string, originAsn: uint32, timestamp: uint64)

  // ----- Lookups -----

  function Member(json: Json, key: string): Option<Json> {
    if json.Obj? && key in json.fields then Some(json.fields[key]) else None
  }

  function MemberArray(json: Json, key: string): Option<seq<Json>> {
    var m := Member(json, key);
    if m.Some? && m.value.Arr? then Some(m.value.items) else None
  }

  function StringOrEmpty(json: Json, key: string): string {
    var m := Member(json, key);
    if m.Some? && m.value.Str? then m.value.s else ""
  }

  predicate HasString(json: Json, key: string, expected: string) {
    Member(json, key) == Some(Str(expected))
  }

  /** A 64-bit unsigned JSON number read as 32 bits loses its high half. */
  function Uint32OrZero(json: Json, key: string): uint32 {
    var m := Member(json, key);
    if m.Some? && m.value.Unsigned? then m.value.n % U32_LIMIT else 0
  }

  function TimestampOrZero(json: Json): uint64 {
    var m := Member(json, "timestamp");
    if m.Some? && m.value.Unsigned? then m.value.n else 0
  }

  function BuildPeerInfo(data: Json): PeerInfo {
    PeerInfo(StringOrEmpty(data, "host"), StringOrEmpty(data, "peer"), Uint32OrZero(data, "peer_asn"))
  }

  /** The last element of the path, when it is a plain unsigned number. */
  function OriginAsn(data: Json): Option<uint32> {
    var path := MemberArray(data, "path");
    if path == None || path.value == [] then None
    else
      var last := path.value[|path.value| - 1];
      if last.Unsigned? then Some(last.n % U32_LIMIT) else None
  }

  /** The data of an UPDATE; any other message has none. */
  function UpdateData(message: Message): Option<Json> {
    if message.Malformed? || !HasString(message.root, "type", "ris_message") then None
    else
      var data := Member(message.root, "data");
      if data == None || !data.value.Obj? || !HasString(data.value, "type", "UPDATE") then None
      else data
  }

  // ----- What a message says -----

  function Strings(items: seq<Json>): seq<string> {
    if items == [] then []
    else Strings(items[..|items| - 1]) + (if items[|items| - 1].Str? then [items[|items| - 1].s] else [])
  }

  function PrefixesOf(announcement: Json): seq<string> {
    var prefixes := MemberArray(announcement, "prefixes");
    if prefixes == None then [] else Strings(prefixes.value)
  }

  function AllPrefixes(announcements: seq<Json>): seq<string> {
    if announcements == [] then []
    else AllPrefixes(announcements[..|announcements| - 1]) + PrefixesOf(announcements[|announcements| - 1])
  }

  function AnnouncedTexts(data: Json): seq<string> {
    var announcements := MemberArray(data, "announcements");
    if OriginAsn(data) == None || announcements == None then [] else AllPrefixes(announcements.value)
  }

  function WithdrawnTexts(data: Json): seq<string> {
    var withdrawals := MemberArray(data, "withdrawals");
    if withdrawals == None then [] else Strings(withdrawals.value)
  }

  function Events(eventType: EventType, peer: PeerInfo, prefixes: seq<string>, asn: uint32, timestamp: uint64)
    : (events: seq<ParsedEvent>)
    ensures |events| == |prefixes|
    ensures forall i :: 0 <= i < |events| ==> events[i] == ParsedEvent(eventType, peer, prefixes[i], asn, timestamp)
  {
    seq(|prefixes|, i requires 0 <= i < |prefixes| => ParsedEvent(eventType, peer, prefixes[i], asn, timestamp))
  }

  function Announcements(data: Json, peer: PeerInfo, timestamp: uint64): seq<ParsedEvent> {
    var asn := if OriginAsn(data) == None then 0 else OriginAsn(data).value;
    Events(AnnounceEvent, peer, AnnouncedTexts(data), asn, timestamp)
  }

  function Withdrawals(data: Json, peer: PeerInfo, timestamp: uint64): seq<ParsedEvent> {
    Events(WithdrawEvent, peer, WithdrawnTexts(data), 0, timestamp)
  }

  /** The calls of the callback one message causes, in order. */
  function EventsOf(message: Message): seq<ParsedEvent> {
    var data := UpdateData(message);
    if data == None then []
    else
      var peer, timestamp := BuildPeerInfo(data.value), TimestampOrZero(data.value);
      Announcements(data.value, peer, timestamp) + Withdrawals(data.value, peer, timestamp)
  }

  // ----- The parsing loops -----

  method AppendStrings(eventType: EventType, items: seq<Json>, peer: PeerInfo, asn: uint32, timestamp: uint64,
                       events: seq<ParsedEvent>, emitted: nat)
    returns (events': seq<ParsedEvent>, emitted': nat)
    ensures events' == events + Events(eventType, peer, Strings(items), asn, timestamp)
    ensures emitted' == emitted + |Strings(items)|
  {
    events', emitted' := events, emitted;
    for i := 0 to |items|
      invariant events' == events + Events(eventType, peer, Strings(items[..i]), asn, timestamp)
      invariant emitted' == emitted + |Strings(items[..i])|
    {
      assert items[..i + 1][..i] == items[..i];
      if !items[i].Str? {
        continue;
      }
      events' := events' + [ParsedEvent(eventType, peer, items[i].s, asn, timestamp)];
      emitted' := emitted' + 1;
    }
    assert items[..|items|] == items;
  }

  lemma EventsConcat(eventType: EventType, peer: PeerInfo, a: seq<string>, b: seq<string>, asn: uint32, timestamp: uint64)
    ensures Events(eventType, peer, a + b, asn, timestamp)
         == Events(eventType, peer, a, asn, timestamp) + Events(eventType, peer, b, asn, timestamp)
  {}

  lemma OneMoreAnnouncement(announcements: seq<Json>, i: nat)
    requires i < |announcements|
    ensures AllPrefixes(announcements[..i + 1]) == AllPrefixes(announcements[..i]) + PrefixesOf(announcements[i])
  {
    assert announcements[..i + 1][..i] == announcements[..i];
  }

  method AppendOneAnnouncement(announcement: Json, peer: PeerInfo, asn: uint32, timestamp: uint64,
                               events: seq<ParsedEvent>, emitted: nat)
    returns (events': seq<ParsedEvent>, emitted': nat)
    ensures events' == events + Events(AnnounceEvent, peer, PrefixesOf(announcement), asn, timestamp)
    ensures emitted' == emitted + |PrefixesOf(announcement)|
  {
    events', emitted' := events, emitted;
    var prefixes := MemberArray(announcement, "prefixes");
    if prefixes == None {
      return;
    }
    events', emitted' := AppendStrings(AnnounceEvent, prefixes.value, peer, asn, timestamp, events', emitted');
  }

  method AppendAnnounceEvents(data: Json, peer: PeerInfo, timestamp: uint64, events: seq<ParsedEvent>, emitted: nat)
    returns (events': seq<ParsedEvent>, emitted': nat)
    ensures events' == events + Announcements(data, peer, timestamp)
    ensures emitted' == emitted + |Announcements(data, peer, timestamp)|
  {
    events', emitted' := events, emitted;
    var origin := OriginAsn(data);
    if origin == None {
      return;
    }
    var found := MemberArray(data, "announcements");
    if found == None {
      return;
    }
    events', emitted' := AppendAnnouncements(found.value, peer, origin.value, timestamp, events', emitted');
  }

  lemma OneMoreBlock(events: seq<ParsedEvent>, peer: PeerInfo, texts: seq<string>, more: seq<string>, asn: uint32,
                     timestamp: uint64)
    ensures events + Events(AnnounceEvent, peer, texts, asn, timestamp) + Events(AnnounceEvent, peer, more, asn, timestamp)
         == events + Events(AnnounceEvent, peer, texts + more, asn, timestamp)
  {
    EventsConcat(AnnounceEvent, peer, texts, more, asn, timestamp);
  }

  method AppendAnnouncements(announcements: seq<Json>, peer: PeerInfo, asn: uint32, timestamp: uint64,
                             events: seq<ParsedEvent>, emitted: nat)
    returns (events': seq<ParsedEvent>, emitted': nat)
    ensures events' == events + Events(AnnounceEvent, peer, AllPrefixes(announcements), asn, timestamp)
    ensures emitted' == emitted + |AllPrefixes(announcements)|
  {
    events', emitted' := events, emitted;
    ghost var texts := [];
    for i := 0 to |announcements|
      invariant texts == AllPrefixes(announcements[..i]) && emitted' == emitted + |texts|
      invariant events' == events + Events(AnnounceEvent, peer, texts, asn, timestamp)
    {
      OneMoreAnnouncement(announcements, i);
      ghost var more := PrefixesOf(announcements[i]);
      events', emitted' := AppendOneAnnouncement(announcements[i], peer, asn, timestamp, events', emitted');
      OneMoreBlock(events, peer, texts, more, asn, timestamp);
      texts := texts + more;
    }
    assert announcements[..|announcements|] == announcements;
  }

  method AppendWithdrawEvents(data: Json, peer: PeerInfo, timestamp: uint64, events: seq<ParsedEvent>, emitted: nat)
    returns (events': seq<ParsedEvent>, emitted': nat)
    ensures events' == events + Withdrawals(data, peer, timestamp)
    ensures emitted' == emitted + |Withdrawals(data, peer, timestamp)|
  {
    events', emitted' := events, emitted;
    var withdrawals := MemberArray(data, "withdrawals");
    if withdrawals == None {
      return;
    }
    events', emitted' := AppendStrings(WithdrawEvent, withdrawals.value, peer, 0, timestamp, events', emitted');
  }

  /** The data object of an UPDATE; anything else is ignored. */
  method FindUpdate(message: Message) returns (r: Option<Json>)
    ensures r == UpdateData(message)
  {
    if message.Malformed? {
      return None;
    }
    if !HasString(message.root, "type", "ris_message") {
      return None;
    }
    var data := Member(message.root, "data");
    if data == None || !data.value.Obj? {
      return None;
    }
    if !HasString(data.value, "type", "UPDATE") {
      return None;
    }
    return data;
  }

  /** The callback calls of a message and their number, which the caller counts as parsed events. */
  method ParseRisLiveMessage(message: Message) returns (events: seq<ParsedEvent>, emitted: nat)
    ensures events == EventsOf(message) && emitted == |events|
  {
    events, emitted := [], 0;
    var data := FindUpdate(message);
    if data == None {
      return;
    }
    var peer, timestamp := BuildPeerInfo(data.value), TimestampOrZero(data.value);
    events, emitted := AppendAnnounceEvents(data.value, peer, timestamp, events, emitted);
    events, emitted := AppendWithdrawEvents(data.value, peer, timestamp, events, emitted);
  }

  // ----- What the order and the shared peer amount to -----

  lemma {:induction false} StringsMembers(items: seq<Json>, s: string)
    ensures s in Strings(items) <==> Str(s) in items
  {
    if items == [] {
    } else {
      StringsMembers(items[..|items| - 1], s);
      assert items == items[..|items| - 1] + [items[|items| - 1]];
    }
  }

  lemma {:induction false} AllPrefixesMembers(announcements: seq<Json>, s: string)
    ensures s in AllPrefixes(announcements) <==> exists a :: a in announcements && s in PrefixesOf(a)
  {
    if announcements == [] {
    } else {
      var front, last := announcements[..|announcements| - 1], announcements[|announcements| - 1];
      AllPrefixesMembers(front, s);
      assert announcements == front + [last];
    }
  }

  /** Every event of a message has its peer and timestamp, and announcements come first. */
  lemma MessageShape(message: Message)
    ensures UpdateData(message) == None ==> EventsOf(message) == []
    ensures UpdateData(message).Some? ==>
      var data, events := UpdateData(message).value, EventsOf(message);
      var firstWithdrawal := |AnnouncedTexts(data)|;
      && firstWithdrawal <= |events|
      && forall i :: 0 <= i < |events| ==>
        && events[i].peer == BuildPeerInfo(data)
        && events[i].timestamp == TimestampOrZero(data)
        && (events[i].eventType == AnnounceEvent <==> i < firstWithdrawal)
        && (i < firstWithdrawal ==> OriginAsn(data) == Some(events[i].originAsn))
  {}

  lemma WithdrawalsStay(message: Message, i: nat)
    requires i < |EventsOf(message)| && EventsOf(message)[i].eventType == WithdrawEvent
    ensures forall j :: i <= j < |EventsOf(message)| ==> EventsOf(message)[j].eventType == WithdrawEvent
  {
    MessageShape(message);
  }

  // ----- What a message says, from its JSON tree alone -----

  /** Only an UPDATE of the live feed says anything. */
  lemma OnlyUpdatesSpeak(message: Message)
    requires EventsOf(message) != []
    ensures message.Document? && message.root.Obj?
    ensures var top := message.root.fields;
      && "type" in top && top["type"] == Str("ris_message") && "data" in top && top["data"].Obj?
      && "type" in top["data"].fields && top["data"].fields["type"] == Str("UPDATE")
  {}

  /** Who speaks and when: fields that are missing or of another type read as empty or zero. */
  lemma EventFields(top: map<string, Json>, data: map<string, Json>, i: nat)
    requires "type" in top && top["type"] == Str("ris_message") && "data" in top && top["data"] == Obj(data)
    requires "type" in data && data["type"] == Str("UPDATE") && i < |EventsOf(Document(Obj(top)))|
    ensures var e := EventsOf(Document(Obj(top)))[i];
      && e.peer.host == (if "host" in data && data["host"].Str? then data["host"].s else "")
      && e.peer.peerIp == (if "peer" in data && data["peer"].Str? then data["peer"].s else "")
      && e.peer.peerAsn == (if "peer_asn" in data && data["peer_asn"].Unsigned? then data["peer_asn"].n % 0x1_0000_0000 else 0)
      && e.timestamp == (if "timestamp" in data && data["timestamp"].Unsigned? then data["timestamp"].n else 0)
  {
    MessageShape(Document(Obj(top)));
  }

  /** The path ends in a plain number. */
  predicate PathEnds(data: map<string, Json>) {
    "path" in data && data["path"].Arr? && data["path"].items != []
      && data["path"].items[|data["path"].items| - 1].Unsigned?
  }

  lemma PathEnd(data: map<string, Json>)
    ensures OriginAsn(Obj(data)).Some? <==> PathEnds(data)
    ensures PathEnds(data) ==>
      OriginAsn(Obj(data)) == Some(data["path"].items[|data["path"].items| - 1].n % 0x1_0000_0000)
  {}

  /** Without such a path a message announces nothing, and withdrawals carry no origin. */
  lemma NoPathNoAnnouncement(top: map<string, Json>, data: map<string, Json>, i: nat)
    requires "type" in top && top["type"] == Str("ris_message") && "data" in top && top["data"] == Obj(data)
    requires "type" in data && data["type"] == Str("UPDATE") && i < |EventsOf(Document(Obj(top)))|
    ensures var e := EventsOf(Document(Obj(top)))[i];
      && (e.eventType == WithdrawEvent ==> e.originAsn == 0)
      && (e.eventType == AnnounceEvent ==> "path" in data && data["path"].Arr?)
      && (e.eventType == AnnounceEvent ==> data["path"].items != [])
      && (e.eventType == AnnounceEvent ==> data["path"].items[|data["path"].items| - 1].Unsigned?)
  {
    MessageShape(Document(Obj(top)));
    PathEnd(data);
  }

  /** Every announcement carries the last number of the path, with its high half dropped. */
  lemma EventOrigin(top: map<string, Json>, data: map<string, Json>, front: seq<Json>, n: uint64, i: nat)
    requires "type" in top && top["type"] == Str("ris_message") && "data" in top && top["data"] == Obj(data)
    requires "type" in data && data["type"] == Str("UPDATE") && i < |EventsOf(Document(Obj(top)))|
    requires "path" in data && data["path"] == Arr(front + [Unsigned(n)])
    ensures var e := EventsOf(Document(Obj(top)))[i];
      e.eventType == AnnounceEvent ==> e.originAsn == n % 0x1_0000_0000
  {
    MessageShape(Document(Obj(top)));
    PathEnd(data);
  }

  /** The announced texts, when the path ends in a number, and the withdrawn ones. */
  function AnnouncedIn(data: map<string, Json>): seq<string> {
    if PathEnds(data) && "announcements" in data && data["announcements"].Arr? then AllPrefixes(data["announcements"].items)
    else []
  }

  function WithdrawnIn(data: map<string, Json>): seq<string> {
    if "withdrawals" in data && data["withdrawals"].Arr? then Strings(data["withdrawals"].items) else []
  }

  /** The events name all the announced prefixes in order, and then all the withdrawn ones. */
  lemma EventTexts(top: map<string, Json>, data: map<string, Json>, i: nat)
    requires "type" in top && top["type"] == Str("ris_message") && "data" in top && top["data"] == Obj(data)
    requires "type" in data && data["type"] == Str("UPDATE")
    ensures var events, announced, withdrawn := EventsOf(Document(Obj(top))), AnnouncedIn(data), WithdrawnIn(data);
      && |events| == |announced| + |withdrawn|
      && (i < |announced| ==> events[i].eventType == AnnounceEvent && events[i].prefix == announced[i])
      && (i < |withdrawn| ==>
        events[|announced| + i].eventType == WithdrawEvent && events[|announced| + i].prefix == withdrawn[i])
  {
    var d, message := Obj(data), Document(Obj(top));
    UpdateFound(top, data);
    TextsFound(data);
    EventsOfUpdate(message, d);
    SplitEvents(Announcements(d, BuildPeerInfo(d), TimestampOrZero(d)), Withdrawals(d, BuildPeerInfo(d), TimestampOrZero(d)), i);
  }

  lemma UpdateFound(top: map<string, Json>, data: map<string, Json>)
    requires "type" in top && top["type"] == Str("ris_message") && "data" in top && top["data"] == Obj(data)
    requires "type" in data && data["type"] == Str("UPDATE")
    ensures UpdateData(Document(Obj(top))) == Some(Obj(data))
  {}

  lemma TextsFound(data: map<string, Json>)
    ensures AnnouncedTexts(Obj(data)) == AnnouncedIn(data) && WithdrawnTexts(Obj(data)) == WithdrawnIn(data)
  {
    PathEnd(data);
  }

  lemma SplitEvents(first: seq<ParsedEvent>, second: seq<ParsedEvent>, i: nat)
    ensures i < |first| ==> (first + second)[i] == first[i]
    ensures i < |second| ==> (first + second)[|first| + i] == second[i]
  {}

  lemma EventsOfUpdate(message: Message, data: Json)
    requires UpdateData(message) == Some(data)
    ensures EventsOf(message)
         == Announcements(data, BuildPeerInfo(data), TimestampOrZero(data))
          + Withdrawals(data, BuildPeerInfo(data), TimestampOrZero(data))
  {}

  /** The prefixes of announcements follow each other; one announcement lists those of its own array. */
  lemma AllPrefixesMore(announcements: seq<Json>, last: Json)
    ensures AllPrefixes(announcements + [last]) == AllPrefixes(announcements) + PrefixesOf(last)
  {
    assert (announcements + [last])[..|announcements|] == announcements;
  }

  lemma {:induction false} AllPrefixesConcat(a: seq<Json>, b: seq<Json>)
    ensures AllPrefixes(a + b) == AllPrefixes(a) + AllPrefixes(b)
  {
    if b == [] {
      assert a + b == a;
    } else {
      var front, last := b[..|b| - 1], b[|b| - 1];
      AllPrefixesConcat(a, front);
      AllPrefixesMore(a + front, last);
      AllPrefixesMore(front, last);
      Regroup(a, front, [last]);
      Regroup(AllPrefixes(a), AllPrefixes(front), PrefixesOf(last));
      assert b == front + [last];
    }
  }

  lemma Regroup<T>(x: seq<T>, y: seq<T>, z: seq<T>)
    ensures (x + y) + z == x + (y + z)
  {}

  lemma AllPrefixesOne(announcement: Json)
    ensures AllPrefixes([announcement])
         == if announcement.Obj? && "prefixes" in announcement.fields && announcement.fields["prefixes"].Arr?
            then Strings(announcement.fields["prefixes"].items) else []
  {
    assert [announcement][..0] == [];
  }

  /** Texts count in order, anything else in an array is skipped. */
  lemma {:induction false} StringsConcat(a: seq<Json>, b: seq<Json>)
    ensures Strings(a + b) == Strings(a) + Strings(b)
  {
    if b == [] {
      assert a + b == a;
    } else {
      var front, last := b[..|b| - 1], b[|b| - 1];
      StringsConcat(a, front);
      StringsMore(a + front, last);
      StringsMore(front, last);
      Regroup(a, front, [last]);
      Regroup(Strings(a), Strings(front), if last.Str? then [last.s] else []);
      assert b == front + [last];
    }
  }

  lemma StringsMore(items: seq<Json>, last: Json)
    ensures Strings(items + [last]) == Strings(items) + if last.Str? then [last.s] else []
  {
    assert (items + [last])[..|items|] == items;
  }

  lemma StringsOne(item: Json)
    ensures Strings([item]) == if item.Str? then [item.s] else []
  {
    assert [item][..0] == [];
  }
}
