/**
 Clipboard synchronisation between two machines: what is put on the wire, what comes off it, and the
 owner marker that keeps received content from being sent back.
 */
module ClipboardSync {
  import opened Options

  type Bytes = seq<nat>

  const OWNER_FORMAT := "dyn.com.rustdesk.owner"
  const I32_MAX: nat := 0x7FFF_FFFF

  datatype Side = Host | Client {
    function OwnerData(): Bytes { if Host? then [1] else [2] }

    /** Either side's marker counts as ours: any of the two low bits will do. */
    predicate IsOwner(data: Bytes) { data != [] && data[0] % 4 != 0 }

    function Other(): Side { if Host? then Client else Host }
  }

  /** One format offered by the clipboard.  The payload of a text is its UTF-8 encoding. */
  datatype Data =
    | Text(text: Bytes)
    | Rtf(text: Bytes)
    | Html(text: Bytes)
    | Rgba(width: nat, height: nat, pixels: Bytes)
    | Png(image: Bytes)
    | Svg(text: Bytes)
    | FileUrl(urls: seq<string>)
    | Special(name: string, data: Bytes)
    | Empty

  // ----- The wire format -----

  datatype Format = FText | FRtf | FHtml | FRgba | FPng | FSvg | FSpecial

  datatype Clipboard = Clipboard(compress: bool, content: Bytes, format: Format, width: int, height: int, specialName: string)

  /** The compressor and the UTF-8 check, neither of which is part of the model. */
  datatype Env = Env(compress: Bytes -> Bytes, decompress: Bytes -> Bytes, utf8: Bytes -> bool)

  ghost predicate Lossless(env: Env) {
    forall b: Bytes :: env.decompress(env.compress(b)) == b
  }

  /** Content is sent compressed only when that makes it shorter. */
  function Packed(env: Env, b: Bytes, format: Format, width: int, height: int, name: string): Clipboard {
    var small := env.compress(b);
    if |small| < |b| then Clipboard(true, small, format, width, height, name)
    else Clipboard(false, b, format, width, height, name)
  }

  function ToProto(env: Env, d: Data): Option<Clipboard> {
    match d
    case Text(t) => Some(Packed(env, t, FText, 0, 0, ""))
    case Rtf(t) => Some(Packed(env, t, FRtf, 0, 0, ""))
    case Html(t) => Some(Packed(env, t, FHtml, 0, 0, ""))
    case Rgba(w, h, px) => Some(Packed(env, px, FRgba, w, h, ""))
    case Png(image) => Some(Clipboard(false, image, FPng, 0, 0, ""))
    case Svg(t) => Some(Packed(env, t, FSvg, 0, 0, ""))
    case Special(name, data) => Some(Packed(env, data, FSpecial, 0, 0, name))
    case FileUrl(_) => None
    case Empty => None
  }

  function ValidRgba(width: int, height: int, length: nat): bool {
    width > 0 && height > 0 && length == width * height * 4
  }

  function FromProto(env: Env, c: Clipboard): Option<Data> {
    var data := if c.compress then env.decompress(c.content) else c.content;
    match c.format
    case FText => if env.utf8(data) then Some(Text(data)) else None
    case FRtf => if env.utf8(data) then Some(Rtf(data)) else None
    case FHtml => if env.utf8(data) then Some(Html(data)) else None
    case FRgba => if ValidRgba(c.width, c.height, |data|) then Some(Rgba(c.width, c.height, data)) else None
    case FPng => Some(Png(data))
    case FSvg => Some(Svg(if env.utf8(data) then data else []))
    case FSpecial => Some(Special(c.specialName, data))
  }

  function CreateMulti(env: Env, data: seq<Data>): seq<Clipboard> {
    if data == [] then []
    else
      var c := ToProto(env, data[0]);
      (if c.Some? then [c.value] else []) + CreateMulti(env, data[1..])
  }

  function FromMulti(env: Env, clips: seq<Clipboard>): seq<Data> {
    if clips == [] then []
    else
      var d := FromProto(env, clips[0]);
      (if d.Some? then [d.value] else []) + FromMulti(env, clips[1..])
  }

  /** What a clipboard library can hand out: texts are UTF-8 and images have their size. */
  ghost predicate Proper(env: Env, d: Data) {
    match d
    case Text(t) => env.utf8(t)
    case Rtf(t) => env.utf8(t)
    case Html(t) => env.utf8(t)
    case Svg(t) => env.utf8(t)
    case Rgba(w, h, px) => w <= I32_MAX && h <= I32_MAX && ValidRgba(w, h, |px|)
    case _ => true
  }

  /** The formats the wire knows. */
  function Sendable(data: seq<Data>): seq<Data> {
    if data == [] then []
    else if data[0].FileUrl? || data[0].Empty? then Sendable(data[1..])
    else [data[0]] + Sendable(data[1..])
  }

  lemma ItemRoundTrip(env: Env, d: Data)
    requires Lossless(env) && Proper(env, d) && ToProto(env, d).Some?
    ensures FromProto(env, ToProto(env, d).value) == Some(d)
  {
  }

  /** What comes off the wire is what was put on it, whatever the compressor did. */
  lemma {:induction false} WireRoundTrip(env: Env, data: seq<Data>)
    requires Lossless(env) && forall i :: 0 <= i < |data| ==> Proper(env, data[i])
    ensures FromMulti(env, CreateMulti(env, data)) == Sendable(data)
  {
    if data != [] {
      WireRoundTrip(env, data[1..]);
      if ToProto(env, data[0]).Some? {
        ItemRoundTrip(env, data[0]);
        var c := ToProto(env, data[0]).value;
        assert CreateMulti(env, data) == [c] + CreateMulti(env, data[1..]);
        assert ([c] + CreateMulti(env, data[1..]))[1..] == CreateMulti(env, data[1..]);
      } else {
        assert CreateMulti(env, data) == CreateMulti(env, data[1..]);
      }
    }
  }

  // ----- Reading and writing the local clipboard -----

  predicate IsMarker(d: Data) { d.Special? && d.name == OWNER_FORMAT }

  predicate Owned(side: Side, d: Data) { IsMarker(d) && side.IsOwner(d.data) }

  predicate Keep(d: Data) { !IsMarker(d) && !d.Empty? && (d.Text? ==> d.text != []) }

  function Kept(data: seq<Data>): seq<Data> {
    if data == [] then []
    else if Keep(data[0]) then [data[0]] + Kept(data[1..])
    else Kept(data[1..])
  }

  /** `get_formats_filter`: nothing if the content is marked as ours, unless the read is forced. */
  function Filtered(data: seq<Data>, side: Side, force: bool): seq<Data> {
    if !force && exists i :: 0 <= i < |data| && Owned(side, data[i]) then [] else Kept(data)
  }

  /** `get`: file copies are another service's business where that service is built in. */
  function Get(data: seq<Data>, side: Side, force: bool, fileService: bool): seq<Data> {
    var content := Filtered(data, side, force);
    if fileService && exists i :: 0 <= i < |content| && content[i].FileUrl? then [] else content
  }

  function AppendOwnerMarker(data: seq<Data>, side: Side): seq<Data> {
    data + [Special(OWNER_FORMAT, side.OwnerData())]
  }

  /** Whatever a received update wrote, an unforced read on either side finds nothing to send. */
  lemma MarkedIsSilent(data: seq<Data>, writer: Side, reader: Side, fileService: bool)
    ensures Get(AppendOwnerMarker(data, writer), reader, false, fileService) == []
  {
    var all := AppendOwnerMarker(data, writer);
    assert Owned(reader, all[|data|]);
  }

  /** A forced read ignores the marker: it does send received content back, without the marker. */
  lemma {:induction false} ForcedReadEchoes(data: seq<Data>, writer: Side, reader: Side)
    ensures Filtered(AppendOwnerMarker(data, writer), reader, true) == Kept(data)
  {
    KeptMarker(data, Special(OWNER_FORMAT, writer.OwnerData()));
  }

  lemma {:induction false} KeptMarker(data: seq<Data>, marker: Data)
    requires IsMarker(marker)
    ensures Kept(data + [marker]) == Kept(data)
  {
    if data != [] {
      KeptMarker(data[1..], marker);
      assert (data + [marker])[1..] == data[1..] + [marker];
    } else {
      assert data + [marker] == [marker];
      assert [marker][1..] == [];
    }
  }

  /** The marker never leaves the machine, and neither does an empty text. */
  lemma {:induction false} KeptItems(data: seq<Data>, i: nat)
    requires i < |Kept(data)|
    ensures Keep(Kept(data)[i]) && Kept(data)[i] in data
  {
    if Keep(data[0]) && i > 0 {
      KeptItems(data[1..], i - 1);
    } else if !Keep(data[0]) {
      KeptItems(data[1..], i);
    }
  }

  // ----- The same, item by item -----

  /** Of one item: all is kept but the marker, an empty text and nothing at all. */
  lemma KeptOne(d: Data)
    ensures Kept([d]) ==
      if (d.Special? && d.name == "dyn.com.rustdesk.owner") || d == Text([]) || d == Empty then [] else [d]
  {
    assert [d][1..] == [];
  }

  /** Items are kept in order and on their own. */
  lemma {:induction false} KeptConcat(a: seq<Data>, b: seq<Data>)
    ensures Kept(a + b) == Kept(a) + Kept(b)
  {
    if a == [] {
      assert a + b == b;
    } else {
      assert (a + b)[1..] == a[1..] + b;
      KeptConcat(a[1..], b);
    }
  }

  /** So every item that is neither marker nor empty is there. */
  lemma KeptEvery(a: seq<Data>, d: Data, b: seq<Data>)
    requires !(d.Special? && d.name == "dyn.com.rustdesk.owner") && d != Text([]) && d != Empty
    ensures Kept(a + [d] + b) == Kept(a) + [d] + Kept(b)
  {
    KeptConcat(a + [d], b);
    KeptConcat(a, [d]);
    KeptOne(d);
  }

  /** An unforced read of content nobody marked finds all of that, unless it holds files and they are served elsewhere. */
  lemma UnmarkedRead(data: seq<Data>, side: Side, fileService: bool)
    requires forall i :: 0 <= i < |data| ==> !(data[i].Special? && data[i].name == "dyn.com.rustdesk.owner")
    ensures (forall i :: 0 <= i < |data| ==> !data[i].FileUrl?) || !fileService ==> Get(data, side, false, fileService) == Kept(data)
    ensures fileService && (exists i :: 0 <= i < |data| && data[i].FileUrl?) ==> Get(data, side, false, fileService) == []
  {
    FilesKept(data);
  }

  lemma FilesKept(data: seq<Data>)
    ensures (exists i :: 0 <= i < |data| && data[i].FileUrl?) <==> exists i :: 0 <= i < |Kept(data)| && Kept(data)[i].FileUrl?
  {
    if i :| 0 <= i < |Kept(data)| && Kept(data)[i].FileUrl? {
      KeptItems(data, i);
    }
    if i :| 0 <= i < |data| && data[i].FileUrl? {
      FileKept(data[..i], data[i], data[i + 1..]);
      assert data == data[..i] + [data[i]] + data[i + 1..];
    }
  }

  lemma FileKept(a: seq<Data>, d: Data, b: seq<Data>)
    requires d.FileUrl?
    ensures exists i :: 0 <= i < |Kept(a + [d] + b)| && Kept(a + [d] + b)[i].FileUrl?
  {
    KeptEvery(a, d, b);
    assert (Kept(a) + [d] + Kept(b))[|Kept(a)|] == d;
  }

  /** Both sides' markers count, and a marker whose byte has neither low bit does not. */
  lemma OwnersExact(side: Side, byte: nat)
    ensures Host.OwnerData() == [1] && Client.OwnerData() == [2]
    ensures Owned(side, Special("dyn.com.rustdesk.owner", [byte])) <==> byte % 4 != 0
  {
    assert [byte][0] == byte;
  }

  /** What goes on the wire: the item's own format, and its bytes, compressed exactly if that makes them fewer. */
  lemma WireExact(env: Env, d: Data)
    ensures ToProto(env, d).None? <==> d.FileUrl? || d.Empty?
    ensures ToProto(env, d).Some? ==>
      var c := ToProto(env, d).value;
      var (format, bytes) := match d
        case Text(t) => (FText, t)
        case Rtf(t) => (FRtf, t)
        case Html(t) => (FHtml, t)
        case Rgba(_, _, px) => (FRgba, px)
        case Png(image) => (FPng, image)
        case Svg(t) => (FSvg, t)
        case Special(_, b) => (FSpecial, b)
        case _ => (c.format, c.content);
      && c.format == format && |c.content| <= |bytes|
      && (c.compress ==> c.content == env.compress(bytes) && |c.content| < |bytes|)
      && (!c.compress ==> c.content == bytes && (d.Png? || |bytes| <= |env.compress(bytes)|))
      && (d.Special? ==> c.specialName == d.name) && (d.Rgba? ==> c.width == d.width && c.height == d.height)
  {
  }

  // ----- The two machines -----

  datatype Message = Message(clips: seq<Clipboard>)

  /**
   What can happen: something else than an update writes a machine's clipboard, the user's copy or
   another session's marked content, whatever it is; the listener reads, unforced, at any time and any
   number of times; a message on the wire is applied.
   */
  datatype Event = Copy(side: Side, data: seq<Data>) | Read(side: Side) | Apply(k: nat, settable: bool)

  /** What came of it: a read may send a message, an update may write the clipboard or be ignored. */
  datatype Effect =
    | Copied(side: Side, data: seq<Data>)
    | Looked(side: Side, sent: Option<Message>)
    | Received(side: Side, data: seq<Data>)
    | Ignored

  /** The two clipboards, the messages on their way with the side they go to, and all effects so far. */
  datatype Net = Net(host: seq<Data>, client: seq<Data>, wire: seq<(Side, Message)>, log: seq<Effect>)

  const QUIET := Net([], [], [], [])

  function DeskOf(n: Net, side: Side): seq<Data> { if side.Host? then n.host else n.client }

  function WithDesk(n: Net, side: Side, data: seq<Data>): Net { if side.Host? then n.(host := data) else n.(client := data) }

  function Logged(n: Net, e: Effect): Net { n.(log := n.log + [e]) }

  /** What a read of this content sends. */
  function Sends(env: Env, fileService: bool, content: seq<Data>, side: Side): Option<Message> {
    var found := Get(content, side, false, fileService);
    if found == [] then None else Some(Message(CreateMulti(env, found)))
  }

  ghost predicate Enabled(n: Net, e: Event) {
    e.Apply? ==> e.k < |n.wire|
  }

  function Step(env: Env, fileService: bool, n: Net, e: Event): Net
    requires Enabled(n, e)
  {
    match e
    case Copy(side, data) => Logged(WithDesk(n, side, data), Copied(side, data))
    case Read(side) =>
      var sent := Sends(env, fileService, DeskOf(n, side), side);
      var m := if sent.Some? then n.(wire := n.wire + [(side.Other(), sent.value)]) else n;
      Logged(m, Looked(side, sent))
    case Apply(k, settable) =>
      var (side, msg) := n.wire[k];
      var data := FromMulti(env, msg.clips);
      var m := n.(wire := n.wire[..k] + n.wire[k + 1..]);
      if data == [] || !settable then Logged(m, Ignored)
      else
        var marked := AppendOwnerMarker(data, side);
        Logged(WithDesk(m, side, marked), Received(side, marked))
  }

  ghost predicate Runs(env: Env, fileService: bool, events: seq<Event>, n: Net) {
    if events == [] then n == QUIET
    else
      var before, e := events[..|events| - 1], events[|events| - 1];
      exists m :: Runs(env, fileService, before, m) && Enabled(m, e) && n == Step(env, fileService, m, e)
  }

  // ----- What the log says -----

  predicate Writes(e: Effect, side: Side) { (e.Copied? || e.Received?) && e.side == side }

  /** What a side's clipboard holds after these effects. */
  ghost function Content(log: seq<Effect>, side: Side): seq<Data> {
    if log == [] then []
    else if Writes(log[|log| - 1], side) then log[|log| - 1].data
    else Content(log[..|log| - 1], side)
  }

  /** Entry c is the last of the first k to write the side's clipboard. */
  ghost predicate LastWrite(log: seq<Effect>, k: nat, side: Side, c: nat) {
    c < k <= |log| && Writes(log[c], side) && forall j :: c < j < k ==> !Writes(log[j], side)
  }

  lemma {:induction false} ContentIsLastWrite(log: seq<Effect>, k: nat, side: Side)
    requires k <= |log|
    ensures Content(log[..k], side) == [] || exists c: nat :: LastWrite(log, k, side, c) && Content(log[..k], side) == log[c].data
  {
    if k > 0 {
      assert log[..k][..k - 1] == log[..k - 1];
      if Writes(log[k - 1], side) {
        assert LastWrite(log, k, side, k - 1);
      } else {
        ContentIsLastWrite(log, k - 1, side);
        if Content(log[..k], side) != [] {
          var c: nat :| LastWrite(log, k - 1, side, c) && Content(log[..k - 1], side) == log[c].data;
          assert LastWrite(log, k, side, c);
        }
      }
    }
  }

  lemma {:induction false} LastWriteIsContent(log: seq<Effect>, k: nat, side: Side, c: nat)
    requires LastWrite(log, k, side, c)
    ensures Content(log[..k], side) == log[c].data
  {
    assert log[..k][..k - 1] == log[..k - 1];
    if c < k - 1 {
      LastWriteIsContent(log, k - 1, side, c);
    }
  }

  // ----- What holds in every run -----

  /** An effect is what its event does to what the log says the clipboards hold. */
  ghost predicate EffectOk(env: Env, fileService: bool, log: seq<Effect>, k: nat, e: Event)
    requires k < |log|
  {
    match log[k]
    case Copied(side, data) => e == Copy(side, data)
    case Looked(side, sent) => e == Read(side) && sent == Sends(env, fileService, Content(log[..k], side), side)
    case Received(side, data) => e.Apply? && exists content :: data == AppendOwnerMarker(content, side)
    case Ignored => e.Apply?
  }

  /** The message was sent by a read on the other side. */
  ghost predicate WasSent(log: seq<Effect>, to: Side, msg: Message) {
    exists k :: 0 <= k < |log| && log[k] == Looked(to.Other(), Some(msg))
  }

  ghost predicate LogOk(env: Env, fileService: bool, events: seq<Event>, log: seq<Effect>) {
    |log| == |events| && forall k :: 0 <= k < |log| ==> EffectOk(env, fileService, log, k, events[k])
  }

  ghost predicate Inv(env: Env, fileService: bool, events: seq<Event>, n: Net) {
    && LogOk(env, fileService, events, n.log)
    && n.host == Content(n.log, Host) && n.client == Content(n.log, Client)
    && (forall w :: 0 <= w < |n.wire| ==> WasSent(n.log, n.wire[w].0, n.wire[w].1))
  }

  lemma EffectLater(env: Env, fileService: bool, log: seq<Effect>, last: Effect, k: nat, e: Event)
    requires k < |log| && EffectOk(env, fileService, log, k, e)
    ensures EffectOk(env, fileService, log + [last], k, e)
  {
    assert (log + [last])[..k] == log[..k];
  }

  lemma SentLater(log: seq<Effect>, last: Effect, to: Side, msg: Message)
    requires WasSent(log, to, msg)
    ensures WasSent(log + [last], to, msg)
  {
    var k :| 0 <= k < |log| && log[k] == Looked(to.Other(), Some(msg));
    assert (log + [last])[k] == log[k];
  }

  /** One more effect leaves what the log said before it, and what it says of the clipboards is as written. */
  lemma LogGrows(env: Env, fileService: bool, events: seq<Event>, n: Net, e: Event, last: Effect)
    requires Inv(env, fileService, events, n) && EffectOk(env, fileService, n.log + [last], |n.log|, e)
    ensures var log, all := n.log + [last], events + [e];
      && LogOk(env, fileService, all, log)
      && (forall w :: 0 <= w < |n.wire| ==> WasSent(log, n.wire[w].0, n.wire[w].1))
      && (forall side :: Content(log, side) == if Writes(last, side) then last.data else DeskOf(n, side))
  {
    var log, all := n.log + [last], events + [e];
    forall k | 0 <= k < |log|
      ensures EffectOk(env, fileService, log, k, all[k])
    {
      if k < |n.log| {
        EffectLater(env, fileService, n.log, last, k, events[k]);
      }
    }
    forall w | 0 <= w < |n.wire|
      ensures WasSent(log, n.wire[w].0, n.wire[w].1)
    {
      SentLater(n.log, last, n.wire[w].0, n.wire[w].1);
    }
    assert log[..|log| - 1] == n.log;
  }

  lemma ReadKeepsInv(env: Env, fileService: bool, events: seq<Event>, n: Net, side: Side)
    requires Inv(env, fileService, events, n)
    ensures Inv(env, fileService, events + [Read(side)], Step(env, fileService, n, Read(side)))
  {
    var sent := Sends(env, fileService, DeskOf(n, side), side);
    LookedOk(env, fileService, n, side, sent);
    LogGrows(env, fileService, events, n, Read(side), Looked(side, sent));
  }

  lemma LookedOk(env: Env, fileService: bool, n: Net, side: Side, sent: Option<Message>)
    requires DeskOf(n, side) == Content(n.log, side) && sent == Sends(env, fileService, DeskOf(n, side), side)
    ensures EffectOk(env, fileService, n.log + [Looked(side, sent)], |n.log|, Read(side))
    ensures sent.Some? ==> WasSent(n.log + [Looked(side, sent)], side.Other(), sent.value)
  {
    var log := n.log + [Looked(side, sent)];
    assert log[..|n.log|] == n.log;
    assert log[|n.log|] == Looked(side.Other().Other(), sent);
  }

  lemma ApplyKeepsInv(env: Env, fileService: bool, events: seq<Event>, n: Net, e: Event)
    requires Inv(env, fileService, events, n) && Enabled(n, e) && e.Apply?
    ensures Inv(env, fileService, events + [e], Step(env, fileService, n, e))
  {
    var (side, msg) := n.wire[e.k];
    var data := FromMulti(env, msg.clips);
    var last := if data == [] || !e.settable then Ignored else Received(side, AppendOwnerMarker(data, side));
    LogGrows(env, fileService, events, n, e, last);
  }

  lemma StepKeepsInv(env: Env, fileService: bool, events: seq<Event>, n: Net, e: Event)
    requires Inv(env, fileService, events, n) && Enabled(n, e)
    ensures Inv(env, fileService, events + [e], Step(env, fileService, n, e))
  {
    match e {
      case Copy(side, data) => LogGrows(env, fileService, events, n, e, Copied(side, data));
      case Read(side) => ReadKeepsInv(env, fileService, events, n, side);
      case Apply(_, _) => ApplyKeepsInv(env, fileService, events, n, e);
    }
  }

  lemma {:induction false} RunKeepsInv(env: Env, fileService: bool, events: seq<Event>, n: Net)
    requires Runs(env, fileService, events, n)
    ensures Inv(env, fileService, events, n)
  {
    if events != [] {
      var before, e := events[..|events| - 1], events[|events| - 1];
      var m :| Runs(env, fileService, before, m) && Enabled(m, e) && n == Step(env, fileService, m, e);
      assert events == before + [e];
      RunKeepsInv(env, fileService, before, m);
      StepKeepsInv(env, fileService, before, m, e);
    }
  }

  // ----- No echo -----

  /** Entry c is a copy on the side, and nothing has written its clipboard between it and entry k. */
  ghost predicate CopyBefore(log: seq<Effect>, k: nat, side: Side, c: nat) {
    LastWrite(log, k, side, c) && log[c].Copied?
  }

  /**
   No echo: in every interleaving, each message was sent by a read, and belongs to the copy on that side
   which was the last write to its clipboard before the read; it is that copy's content, and the copy was
   unmarked.  Content that an update wrote is never sent.
   */
  lemma NoEcho(env: Env, fileService: bool, events: seq<Event>, n: Net, k: nat) returns (c: nat)
    requires Runs(env, fileService, events, n) && k < |n.log| && n.log[k].Looked? && n.log[k].sent.Some?
    ensures k < |events| && events[k] == Read(n.log[k].side)
    ensures CopyBefore(n.log, k, n.log[k].side, c) && events[c] == Copy(n.log[k].side, n.log[c].data)
    ensures n.log[k].sent == Sends(env, fileService, n.log[c].data, n.log[k].side)
    ensures forall i :: 0 <= i < |n.log[c].data| ==> !Owned(n.log[k].side, n.log[c].data[i])
  {
    RunKeepsInv(env, fileService, events, n);
    c := SenderIsCopy(env, fileService, events, n.log, k);
    ReadAfterCopy(env, fileService, events, n, k, c);
  }

  /** Nothing copied is held back either: a read after a copy sends whatever there is to send in it. */
  lemma ReadAfterCopy(env: Env, fileService: bool, events: seq<Event>, n: Net, k: nat, c: nat)
    requires Runs(env, fileService, events, n) && k < |n.log| && n.log[k].Looked?
    requires CopyBefore(n.log, k, n.log[k].side, c)
    ensures n.log[k].sent == Sends(env, fileService, n.log[c].data, n.log[k].side)
  {
    RunKeepsInv(env, fileService, events, n);
    assert EffectOk(env, fileService, n.log, k, events[k]);
    LastWriteIsContent(n.log, k, n.log[k].side, c);
  }

  /** What a read that sends something finds was copied there. */
  lemma SenderIsCopy(env: Env, fileService: bool, events: seq<Event>, log: seq<Effect>, k: nat) returns (c: nat)
    requires LogOk(env, fileService, events, log) && k < |log| && log[k].Looked? && log[k].sent.Some?
    ensures CopyBefore(log, k, log[k].side, c) && events[k] == Read(log[k].side) && events[c] == Copy(log[k].side, log[c].data)
  {
    var side := log[k].side;
    assert EffectOk(env, fileService, log, k, events[k]);
    ContentIsLastWrite(log, k, side);
    assert Get([], side, false, fileService) == [];
    c :| LastWrite(log, k, side, c) && Content(log[..k], side) == log[c].data;
    assert EffectOk(env, fileService, log, c, events[c]);
    if log[c].Received? {
      var content :| log[c].data == AppendOwnerMarker(content, side);
      MarkedIsSilent(content, side, side, fileService);
    }
  }

  /** Entry k is a read that follows a copy, with no other write between. */
  ghost predicate ReadOfCopy(log: seq<Effect>, k: nat)
    requires k < |log|
  {
    log[k].Looked? && exists c: nat :: CopyBefore(log, k, log[k].side, c)
  }

  /** How many messages were sent within the first k entries, and how many reads followed a copy. */
  ghost function Messages(log: seq<Effect>, k: nat): nat
    requires k <= |log|
  {
    if k == 0 then 0 else Messages(log, k - 1) + if log[k - 1].Looked? && log[k - 1].sent.Some? then 1 else 0
  }

  ghost function ReadsOfCopies(log: seq<Effect>, k: nat): nat
    requires k <= |log|
  {
    if k == 0 then 0 else ReadsOfCopies(log, k - 1) + if ReadOfCopy(log, k - 1) then 1 else 0
  }

  /** So messages never outnumber the reads that follow a copy. */
  lemma MessagesBounded(env: Env, fileService: bool, events: seq<Event>, n: Net)
    requires Runs(env, fileService, events, n)
    ensures Messages(n.log, |n.log|) <= ReadsOfCopies(n.log, |n.log|)
  {
    RunKeepsInv(env, fileService, events, n);
    SentByReads(env, fileService, events, n.log, |n.log|);
  }

  lemma {:induction false} SentByReads(env: Env, fileService: bool, events: seq<Event>, log: seq<Effect>, k: nat)
    requires LogOk(env, fileService, events, log) && k <= |log|
    ensures Messages(log, k) <= ReadsOfCopies(log, k)
  {
    if k > 0 {
      SentByReads(env, fileService, events, log, k - 1);
      if log[k - 1].Looked? && log[k - 1].sent.Some? {
        var c := SenderIsCopy(env, fileService, events, log, k - 1);
      }
    }
  }

  // ----- Delivery -----

  /** The copy a received update reproduces: it was made on the other side, and this is its content. */
  ghost predicate Reproduces(fileService: bool, e: Event, side: Side, content: seq<Data>) {
    && e.Copy? && e.side == side.Other()
    && content == AppendOwnerMarker(Sendable(Get(e.data, e.side, false, fileService)), side)
  }

  ghost predicate AllProper(env: Env, data: seq<Data>) {
    forall i :: 0 <= i < |data| ==> Proper(env, data[i])
  }

  /**
   Delivery: what an update writes is exactly the copy on the other side, less the formats the wire does
   not carry, followed by the marker.
   */
  lemma Delivered(env: Env, fileService: bool, events: seq<Event>, n: Net, k: nat)
    requires Lossless(env) && Runs(env, fileService, events, n) && k < |n.wire|
    requires FromMulti(env, n.wire[k].1.clips) != []
    requires forall i :: 0 <= i < |events| && events[i].Copy? ==> AllProper(env, events[i].data)
    ensures var written := DeskOf(Step(env, fileService, n, Apply(k, true)), n.wire[k].0);
            exists i :: 0 <= i < |events| && Reproduces(fileService, events[i], n.wire[k].0, written)
  {
    RunKeepsInv(env, fileService, events, n);
    var (side, msg) := n.wire[k];
    var r :| 0 <= r < |n.log| && n.log[r] == Looked(side.Other(), Some(msg));
    var c := SenderIsCopy(env, fileService, events, n.log, r);
    LastWriteIsContent(n.log, r, side.Other(), c);
    assert EffectOk(env, fileService, n.log, r, events[r]);
    var content := Get(events[c].data, side.Other(), false, fileService);
    forall j | 0 <= j < |content|
      ensures Proper(env, content[j])
    {
      KeptItems(events[c].data, j);
    }
    WireRoundTrip(env, content);
    assert Reproduces(fileService, events[c], side, AppendOwnerMarker(Sendable(content), side));
  }

  // ----- The marker -----

  predicate CarriesMarker(c: Clipboard) { c.format == FSpecial && c.specialName == OWNER_FORMAT }

  lemma {:induction false} CreateUnmarked(env: Env, data: seq<Data>, i: nat)
    requires (forall j :: 0 <= j < |data| ==> !IsMarker(data[j])) && i < |CreateMulti(env, data)|
    ensures !CarriesMarker(CreateMulti(env, data)[i])
  {
    if ToProto(env, data[0]).None? {
      CreateUnmarked(env, data[1..], i);
    } else if i > 0 {
      CreateUnmarked(env, data[1..], i - 1);
    }
  }

  /** In every run, whatever was copied, the marker appears in no message that was sent. */
  lemma MarkerStaysHome(env: Env, fileService: bool, events: seq<Event>, n: Net, k: nat, i: nat)
    requires Runs(env, fileService, events, n) && k < |n.log| && n.log[k].Looked? && n.log[k].sent.Some?
    requires i < |n.log[k].sent.value.clips|
    ensures !CarriesMarker(n.log[k].sent.value.clips[i])
  {
    RunKeepsInv(env, fileService, events, n);
    assert EffectOk(env, fileService, n.log, k, events[k]);
    var found := Content(n.log[..k], n.log[k].side);
    var content := Get(found, n.log[k].side, false, fileService);
    forall j | 0 <= j < |content|
      ensures !IsMarker(content[j])
    {
      KeptItems(found, j);
    }
    CreateUnmarked(env, content, i);
  }
}
