/** qemud's clients and the channels through which they talk to services in the emulator. */
module Multiplexing {
  import opened Words
  import opened Framing

  const CHANNEL_CONTROL := 0
  const NUM_CHANNELS := 256

  /** A client socket; channel is -1 while the client has none. */
  datatype Client = Client(fd: int, channel: int, registered: bool)

  /** Data queued for a client's socket. */
  datatype Post = Post(fd: int, payload: seq<byte>)

  /** The clients, the channel handed out last, and what was sent to the emulator and to the clients. */
  datatype Mux = Mux(clients: seq<Client>, lastChannel: int, sent: seq<Frame>, posted: seq<Post>)

  // --- The invariant ----------------------------------------------------------------------------

  predicate InUse(clients: seq<Client>, channel: int) {
    exists k :: 0 <= k < |clients| && clients[k].channel == channel
  }

  /** No two clients share a channel, every channel is a byte or -1, and a registered client has one. */
  ghost predicate Safe(clients: seq<Client>) {
    (forall k :: 0 <= k < |clients| ==> -1 <= clients[k].channel < NUM_CHANNELS) &&
    (forall k :: 0 <= k < |clients| ==> clients[k].registered ==> clients[k].channel >= 0) &&
    forall j, k :: 0 <= j < k < |clients| ==> clients[j].channel >= 0 ==> clients[j].channel != clients[k].channel
  }

  /** multiplexer_find_client: the first client with the channel, or -1. */
  function FindClient(clients: seq<Client>, channel: int): (k: int)
    ensures -1 <= k < |clients|
    ensures k >= 0 ==> clients[k].channel == channel
  {
    if clients == [] then -1
    else if clients[0].channel == channel then 0
    else
      var k := FindClient(clients[1..], channel);
      if k < 0 then -1 else k + 1
  }

  lemma {:induction false} FoundIffInUse(clients: seq<Client>, channel: int)
    ensures FindClient(clients, channel) >= 0 <==> InUse(clients, channel)
  {
    if clients != [] && clients[0].channel != channel {
      FoundIffInUse(clients[1..], channel);
      if InUse(clients, channel) {
        var k :| 0 <= k < |clients| && clients[k].channel == channel;
        assert clients[1..][k - 1].channel == channel;
      }
    }
  }

  /** In a safe state the client found for a channel is the only one that has it. */
  lemma FoundIsUnique(clients: seq<Client>, channel: int, k: nat)
    requires Safe(clients) && channel >= 0 && k < |clients| && clients[k].channel == channel
    ensures FindClient(clients, channel) == k
  {
    FoundIffInUse(clients, channel);
  }

  // --- Allocating a channel ------------------------------------------------------------------------

  /** last is the first number after before whose low byte no client has. */
  ghost predicate IsNext(clients: seq<Client>, before: int, last: int) {
    before < last && !InUse(clients, last % NUM_CHANNELS) &&
    forall x :: before < x < last ==> InUse(clients, x % NUM_CHANNELS)
  }

  function ChannelsOf(clients: seq<Client>): set<int> {
    if clients == [] then {} else {clients[0].channel} + ChannelsOf(clients[1..])
  }

  lemma {:induction false} ChannelsUsed(clients: seq<Client>, channel: int)
    ensures channel in ChannelsOf(clients) <==> InUse(clients, channel)
    ensures |ChannelsOf(clients)| <= |clients|
  {
    if clients != [] {
      ChannelsUsed(clients[1..], channel);
      if InUse(clients, channel) && clients[0].channel != channel {
        var k :| 0 <= k < |clients| && clients[k].channel == channel;
        assert clients[1..][k - 1].channel == channel;
      }
    }
  }

  function Below(n: nat): set<int> {
    if n == 0 then {} else Below(n - 1) + {n - 1}
  }

  lemma {:induction false} BelowHas(n: nat)
    ensures |Below(n)| == n && forall c: int :: c in Below(n) <==> 0 <= c < n
  {
    if n > 0 {
      BelowHas(n - 1);
    }
  }

  /** A channel below n that no client has, if there is one. */
  lemma {:induction false} FreeOrAllUsed(clients: seq<Client>, n: nat) returns (free: int)
    ensures free == -1 || (0 <= free < n && !InUse(clients, free))
    ensures free == -1 ==> Below(n) <= ChannelsOf(clients)
  {
    free := -1;
    if n > 0 {
      ChannelsUsed(clients, n - 1);
      if InUse(clients, n - 1) {
        free := FreeOrAllUsed(clients, n - 1);
      } else {
        free := n - 1;
      }
    }
  }

  /** With fewer than n clients one of n channels is free, so the search for one ends. */
  lemma SomeChannelFree(clients: seq<Client>, n: nat) returns (free: int)
    requires |clients| < n
    ensures 0 <= free < n && !InUse(clients, free)
  {
    var all, used := Below(n), ChannelsOf(clients);
    BelowHas(n);
    ChannelsUsed(clients, 0);
    free := FreeOrAllUsed(clients, n);
    assert all <= used ==> used == all + (used - all);
  }

  /** Without a free channel the search would go on for ever. */
  ghost predicate HasFree(clients: seq<Client>) {
    exists free :: 0 <= free < NUM_CHANNELS && !InUse(clients, free)
  }

  lemma FewClients(clients: seq<Client>)
    requires |clients| < NUM_CHANNELS
    ensures HasFree(clients)
  {
    var free := SomeChannelFree(clients, NUM_CHANNELS);
  }

  /** How many numbers there are from last on to the next with the low byte free. */
  function Distance(last: int, free: int): nat {
    (free - last) % NUM_CHANNELS
  }

  lemma Closer(last: int, free: int)
    requires 0 <= free < NUM_CHANNELS && last % NUM_CHANNELS != free
    ensures Distance(last + 1, free) < Distance(last, free)
  {}

  // --- Messages ----------------------------------------------------------------------------------

  /** ASCII text as bytes. */
  function Ascii(s: string): (r: seq<byte>)
    ensures |r| == |s|
  {
    seq(|s|, i requires 0 <= i < |s| => s[i] as int % 256)
  }

  /** What "%.*s" prints of a packet: the bytes before the first zero byte. */
  function Text(data: seq<byte>): seq<byte> {
    if data == [] || data[0] == 0 then [] else [data[0]] + Text(data[1..])
  }

  function ConnectMessage(service: seq<byte>, channel: int): seq<byte> {
    Ascii("connect:") + Text(service) + Ascii(":") + ToHex(channel, 2)
  }

  function DisconnectMessage(channel: int): seq<byte> {
    Ascii("disconnect:") + ToHex(channel, 2)
  }

  /** A control message of a kind: eleven bytes that name the kind and two that should be hex digits. */
  predicate IsMessage(kind: string, p: seq<byte>) {
    |p| == 13 && p[..11] == Ascii(kind)
  }

  /** The channel a control message is about; -1 if the digits are malformed. */
  function ChannelIn(p: seq<byte>): int
    requires |p| == 13
  {
    HexValue(p[11..])
  }

  // --- What each callback does ------------------------------------------------------------------------

  function Set(m: Mux, k: nat, channel: int, registered: bool): Mux
    requires k < |m.clients|
  {
    m.(clients := m.clients[k := m.clients[k].(channel := channel, registered := registered)])
  }

  /** client_free */
  function Free(m: Mux, k: nat): Mux
    requires k < |m.clients|
  {
    m.(clients := m.clients[..k] + m.clients[k + 1..])
  }

  /** client_registration */
  function Registration(m: Mux, k: nat, accepted: bool): Mux
    requires k < |m.clients|
  {
    var c := m.clients[k];
    Set(m, k, if accepted then c.channel else -1, accepted).(
      posted := m.posted + [Post(c.fd, if accepted then Ascii("OK") else Ascii("KO"))])
  }

  /** multiplexer_handle_control */
  function Control(m: Mux, p: seq<byte>): Mux {
    if IsMessage("ok:connect:", p) then
      var k := FindClient(m.clients, ChannelIn(p));
      if k < 0 then m else Registration(m, k, true)
    else if IsMessage("ko:connect:", p) then
      var k := FindClient(m.clients, ChannelIn(p));
      if k < 0 then m else Registration(m, k, false)
    else if IsMessage("disconnect:", p) then
      var k := FindClient(m.clients, ChannelIn(p));
      if k < 0 then m else Free(m, k)
    else m
  }

  /** multiplexer_serial_receive */
  function FromSerial(m: Mux, f: Frame): Mux {
    if f.channel == CHANNEL_CONTROL then Control(m, f.payload)
    else
      var k := FindClient(m.clients, f.channel);
      if k < 0 then m else m.(posted := m.posted + [Post(m.clients[k].fd, f.payload)])
  }

  /** client_fd_receive; last is the number the search for a free channel ends with, if there is one. */
  function FromClient(m: Mux, k: nat, p: seq<byte>, last: int): Mux
    requires k < |m.clients|
  {
    var c := m.clients[k];
    if c.registered then m.(sent := m.sent + [Frame(c.channel, p)])
    else if c.channel > 0 then Free(m, k)
    else
      var channel := last % NUM_CHANNELS;
      var message := ConnectMessage(p, channel);
      if |message| >= MAX_PAYLOAD then Free(m.(lastChannel := last), k)
      else Set(m.(lastChannel := last, sent := m.sent + [Frame(CHANNEL_CONTROL, message)]), k, channel, false)
  }

  /** client_fd_close */
  function Closed(m: Mux, k: nat): Mux
    requires k < |m.clients|
  {
    var c := m.clients[k];
    var sent := if c.channel > 0 then m.sent + [Frame(CHANNEL_CONTROL, DisconnectMessage(c.channel))] else m.sent;
    Free(m.(sent := sent), k)
  }

  /** client_new */
  function Accepted(m: Mux, fd: int): Mux {
    m.(clients := [Client(fd, -1, false)] + m.clients)
  }

  // --- What they keep ---------------------------------------------------------------------------------

  lemma FreeSafe(clients: seq<Client>, k: nat)
    requires Safe(clients) && k < |clients|
    ensures Safe(clients[..k] + clients[k + 1..])
  {}

  lemma SetSafe(clients: seq<Client>, k: nat, c: Client)
    requires Safe(clients) && k < |clients| && -1 <= c.channel < NUM_CHANNELS && (c.registered ==> c.channel >= 0)
    requires c.channel >= 0 ==> forall j :: 0 <= j < |clients| && j != k ==> clients[j].channel != c.channel
    ensures Safe(clients[k := c])
  {}

  /** Handing out the next free channel keeps the channels apart. */
  lemma {:induction false} FromClientSafe(m: Mux, k: nat, p: seq<byte>, last: int)
    requires Safe(m.clients) && k < |m.clients|
    requires !m.clients[k].registered && m.clients[k].channel <= 0 ==> IsNext(m.clients, m.lastChannel, last)
    ensures Safe(FromClient(m, k, p, last).clients)
  {
    var c := m.clients[k];
    FreeSafe(m.clients, k);
    if !c.registered && c.channel <= 0 {
      SetSafe(m.clients, k, c.(channel := last % NUM_CHANNELS, registered := false));
    }
  }

  /**
   * A control message keeps the state safe unless it accepts a connection under a malformed channel
   * number while some client has no channel: that client becomes registered without one.
   */
  lemma ControlSafeIff(m: Mux, p: seq<byte>)
    requires Safe(m.clients)
    ensures Safe(Control(m, p).clients) <==>
            !(IsMessage("ok:connect:", p) && ChannelIn(p) == -1 && InUse(m.clients, -1))
  {
    var channel := if |p| == 13 then ChannelIn(p) else -1;
    var k := FindClient(m.clients, channel);
    FoundIffInUse(m.clients, channel);
    if k >= 0 {
      var c := m.clients[k];
      FreeSafe(m.clients, k);
      SetSafe(m.clients, k, c.(channel := -1, registered := false));
      if channel >= 0 {
        SetSafe(m.clients, k, c.(registered := true));
      } else if IsMessage("ok:connect:", p) {
        assert Control(m, p).clients[k] == c.(registered := true);
      }
    }
  }

  /** The message that breaks it, for a client that has just connected. */
  lemma MalformedReplyRegisters(fd: int)
    ensures var m := Accepted(Mux([], 0, [], []), fd);
            Safe(m.clients) && Control(m, Ascii("ok:connect:zz")).clients == [Client(fd, -1, true)]
  {
    var p := Ascii("ok:connect:zz");
    assert p[..11] == Ascii("ok:connect:");
    assert p[11..] == [122, 122];
    assert HexDigit(122) == -1;
  }

  /** A packet on a channel other than the control channel reaches the one client that has the channel, or nobody. */
  lemma DeliveredToOne(m: Mux, f: Frame, k: nat)
    requires Safe(m.clients) && f.channel > 0 && k < |m.clients|
    ensures FromSerial(m, f).clients == m.clients
    ensures m.clients[k].channel == f.channel ==>
              FromSerial(m, f).posted == m.posted + [Post(m.clients[k].fd, f.payload)]
    ensures !InUse(m.clients, f.channel) ==> FromSerial(m, f) == m
  {
    FoundIffInUse(m.clients, f.channel);
    if m.clients[k].channel == f.channel {
      FoundIsUnique(m.clients, f.channel, k);
    }
  }

  /** The emulator's answer to a connect message reaches exactly the client that asked. */
  lemma AnswerFindsClient(m: Mux, k: nat, accepted: bool)
    requires Safe(m.clients) && k < |m.clients| && 0 <= m.clients[k].channel
    ensures var answer := Ascii(if accepted then "ok:connect:" else "ko:connect:") + ToHex(m.clients[k].channel, 2);
            Control(m, answer) == Registration(m, k, accepted)
  {
    var c := m.clients[k].channel;
    var answer := Ascii(if accepted then "ok:connect:" else "ko:connect:") + ToHex(c, 2);
    assert answer[11..] == ToHex(c, 2);
    assert answer[..11] == Ascii(if accepted then "ok:connect:" else "ko:connect:");
    assert Pow16(2) == 256 by {
      assert Pow16(1) == 16 * Pow16(0);
    }
    HexRoundTrip(c, 2);
    FoundIsUnique(m.clients, c, k);
    if !accepted {
      assert Ascii("ko:connect:")[0] != Ascii("ok:connect:")[0];
    }
  }

  // --- The multiplexer ---------------------------------------------------------------------------------

  class Multiplexer {
    var clients: seq<Client>
    var lastChannel: int
    var sent: seq<Frame>      // handed to serial_send
    var posted: seq<Post>     // handed to fdhandler_enqueue

    ghost function State(): Mux
      reads this
    {
      Mux(clients, lastChannel, sent, posted)
    }

    constructor ()
      ensures State() == Mux([], 0, [], []) && Safe(clients)
    {
      clients, lastChannel, sent, posted := [], 0, [], [];
    }

    method Find(channel: int) returns (k: int)
      ensures k == FindClient(clients, channel)
    {
      k := 0;
      while k < |clients|
        invariant 0 <= k <= |clients|
        invariant var rest := FindClient(clients[k..], channel);
                  FindClient(clients, channel) == if rest < 0 then -1 else rest + k
      {
        assert clients[k..][1..] == clients[k + 1..];
        if clients[k].channel == channel {
          return;
        }
        k := k + 1;
      }
      k := -1;
    }

    /** The search of multiplexer_open_channel: it ends if there is a free channel at all. */
    method NextChannel(ghost free: int) returns (channel: int)
      requires 0 <= free < NUM_CHANNELS && !InUse(clients, free)
      modifies `lastChannel
      ensures IsNext(clients, old(lastChannel), lastChannel) && channel == lastChannel % NUM_CHANNELS
    {
      lastChannel := lastChannel + 1;
      channel := lastChannel % NUM_CHANNELS;
      var k := Find(channel);
      FoundIffInUse(clients, channel);
      while k >= 0
        invariant old(lastChannel) < lastChannel && channel == lastChannel % NUM_CHANNELS
        invariant k >= 0 <==> InUse(clients, channel)
        invariant forall x :: old(lastChannel) < x < lastChannel ==> InUse(clients, x % NUM_CHANNELS)
        decreases Distance(lastChannel, free)
      {
        Closer(lastChannel, free);
        lastChannel := lastChannel + 1;
        channel := lastChannel % NUM_CHANNELS;
        k := Find(channel);
        FoundIffInUse(clients, channel);
      }
    }

    method Remove(k: nat)
      requires k < |clients|
      modifies `clients
      ensures State() == Free(old(State()), k)
    {
      clients := clients[..k] + clients[k + 1..];
    }

    /** client_registration */
    method Register(k: nat, accepted: bool)
      requires k < |clients|
      modifies `clients, `posted
      ensures State() == Registration(old(State()), k, accepted)
    {
      var c := clients[k];
      posted := posted + [Post(c.fd, if accepted then Ascii("OK") else Ascii("KO"))];
      clients := clients[k := c.(channel := if accepted then c.channel else -1, registered := accepted)];
    }

    /** multiplexer_handle_control */
    method HandleControl(p: seq<byte>)
      modifies `clients, `posted
      ensures State() == Control(old(State()), p)
    {
      if |p| != 13 {
        return;
      }
      var channel := Hex2Int(p[11..]);
      var k := Find(channel);
      if p[..11] == Ascii("ok:connect:") {
        if k >= 0 {
          Register(k, true);
        }
      } else if p[..11] == Ascii("ko:connect:") {
        if k >= 0 {
          Register(k, false);
        }
      } else if p[..11] == Ascii("disconnect:") {
        if k >= 0 {
          Remove(k);
        }
      }
    }

    /** multiplexer_serial_receive */
    method SerialReceive(f: Frame)
      modifies `clients, `posted
      ensures State() == FromSerial(old(State()), f)
      ensures old(Safe(clients)) && !(f.channel == CHANNEL_CONTROL && IsMessage("ok:connect:", f.payload) && ChannelIn(f.payload) == -1)
              ==> Safe(clients)
    {
      if f.channel == CHANNEL_CONTROL {
        if Safe(clients) {
          ControlSafeIff(State(), f.payload);
        }
        HandleControl(f.payload);
        return;
      }
      var k := Find(f.channel);
      if k >= 0 {
        posted := posted + [Post(clients[k].fd, f.payload)];
      }
    }

    /** client_fd_receive; a client that asks for a channel does so while one is free. */
    method ClientReceive(k: nat, p: seq<byte>)
      requires k < |clients| && Safe(clients)
      requires !clients[k].registered && clients[k].channel <= 0 ==> HasFree(clients)
      modifies this
      ensures Safe(clients) && State() == FromClient(old(State()), k, p, lastChannel)
    {
      ghost var before := State();
      var c := clients[k];
      if c.registered {
        sent := sent + [Frame(c.channel, p)];
      } else if c.channel > 0 {
        FreeSafe(clients, k);
        Remove(k);
      } else {
        ghost var free :| 0 <= free < NUM_CHANNELS && !InUse(clients, free);
        var channel := NextChannel(free);
        FromClientSafe(before, k, p, lastChannel);
        var message := ConnectMessage(p, channel);
        if |message| >= MAX_PAYLOAD {
          Remove(k);
        } else {
          sent := sent + [Frame(CHANNEL_CONTROL, message)];
          clients := clients[k := c.(channel := channel)];
        }
      }
    }

    /** client_fd_close */
    method ClientClose(k: nat)
      requires k < |clients| && Safe(clients)
      modifies this
      ensures Safe(clients) && State() == Closed(old(State()), k)
    {
      FreeSafe(clients, k);
      if clients[k].channel > 0 {
        sent := sent + [Frame(CHANNEL_CONTROL, DisconnectMessage(clients[k].channel))];
      }
      Remove(k);
    }

    /** multiplexer_control_accept */
    method Accept(fd: int)
      requires Safe(clients)
      modifies `clients
      ensures Safe(clients) && State() == Accepted(old(State()), fd)
    {
      clients := [Client(fd, -1, false)] + clients;
    }
  }
}
