/**
 * Twitch/TwitchClient.cs, the client's bookkeeping as values: whether it is
 * connected, whether it logged in anonymously, the retained channel list
 * (`_ircChannels`), the joined-channel registry (`Channels`) and the
 * commands handed to the transport, in order. Each operation is a step
 * function giving the new state and the exception it throws, if any; a
 * thrown exception leaves the state as it was at the throw.
 */
module ClientSpec {
  import opened Ints
  import opened Wrappers
  import opened ChannelNames
  import RoomState

  const PongPrefix: string := "PONG :"

  /** What the client asks the underlying IRC connection to do. */
  datatype Command =
    | PrivMsg(channel: string, message: string)   // `SendMessageAsync(prefixedChannel, message)`
    | Raw(line: string)                           // `SendRawAsync`
    | JoinCommand(channel: string)                // `JoinChannelAsync`
    | PartCommand(channel: string)                // `LeaveChannelAsync`
    | ConnectCommand(channels: seq<string>)       // `ConnectAsync(channels)`
    | DisconnectCommand                           // `DisconnectAsync`

  /** A joined channel: its name, id, the '#'-prefixed name messages go to, and its room state. */
  datatype ChannelEntry = ChannelEntry(name: string, id: Int32, prefixedName: string, flags: RoomState.Flags)

  datatype ClientState = ClientState(
    connected: bool,
    anonymous: bool,
    retained: seq<string>,
    channels: seq<ChannelEntry>,
    outbound: seq<Command>)

  datatype ClientError =
    | ClientNotConnected          // `ClientNotConnectedException`
    | AnonymousClient             // `AnonymousClientException`
    | NotConnectedToTheChannel    // `NotConnectedToTheChannelException`
    | Format                      // `FormatException` from `FormatChannel`

  datatype Outcome = Outcome(state: ClientState, error: Option<ClientError>)

  function Done(s: ClientState): Outcome
  {
    Outcome(s, None)
  }

  function Fail(s: ClientState, e: ClientError): Outcome
  {
    Outcome(s, Some(e))
  }

  function Initial(anonymous: bool): ClientState
  {
    ClientState(false, anonymous, [], [], [])
  }

  // ---------------------------------------------------------------------
  // The joined-channel registry (`ChannelList`)
  // ---------------------------------------------------------------------

  /** `Channels[name]`: the first entry of that name, or null. */
  function FindByName(entries: seq<ChannelEntry>, name: string): (r: Option<ChannelEntry>)
    ensures r.Some? ==> r.value in entries && r.value.name == name
    ensures r.None? <==> forall e :: e in entries ==> e.name != name
  {
    if entries == [] then None
    else if entries[0].name == name then Some(entries[0])
    else FindByName(entries[1..], name)
  }

  /** `Channels[channelId]`: the first entry with that id, or null. */
  function FindById(entries: seq<ChannelEntry>, id: Int64): (r: Option<ChannelEntry>)
    ensures r.Some? ==> r.value in entries && r.value.id == id
    ensures r.None? <==> forall e :: e in entries ==> e.id != id
  {
    if entries == [] then None
    else if entries[0].id == id then Some(entries[0])
    else FindById(entries[1..], id)
  }

  /** `Channels.Remove(name)`: every entry of that name goes, the rest stay in order. */
  function RemoveByName(entries: seq<ChannelEntry>, name: string): (r: seq<ChannelEntry>)
    ensures forall e :: e in r <==> e in entries && e.name != name
  {
    if entries == [] then []
    else (if entries[0].name == name then [] else [entries[0]]) + RemoveByName(entries[1..], name)
  }

  /** A channel first seen in a ROOMSTATE message. */
  function NewEntry(args: RoomState.RoomstateArgs): ChannelEntry
  {
    ChannelEntry(args.channel, args.channelId, [ChannelPrefix] + args.channel, RoomState.FlagsOf(args))
  }

  /** `Channels.Update(args)`: the channel's flags are replaced, or the channel is added. */
  function UpdateChannels(entries: seq<ChannelEntry>, args: RoomState.RoomstateArgs): (r: seq<ChannelEntry>)
    ensures |r| == |entries| + (if FindByName(entries, args.channel).None? then 1 else 0)
    ensures forall i :: 0 <= i < |entries| ==>
      r[i].name == entries[i].name && r[i].id == entries[i].id && r[i].prefixedName == entries[i].prefixedName
  {
    if FindByName(entries, args.channel).None? then entries + [NewEntry(args)]
    else (seq(|entries|, i requires 0 <= i < |entries| =>
      if entries[i].name == args.channel then entries[i].(flags := RoomState.FlagsOf(args)) else entries[i]))
  }

  /** After an update the channel holds the message's flags, and every other channel is as it was. */
  lemma {:induction false} UpdateChannelsLookup(entries: seq<ChannelEntry>, args: RoomState.RoomstateArgs, name: string)
    ensures name == args.channel ==>
      var e := FindByName(UpdateChannels(entries, args), name);
      && e.Some? && e.value.flags == RoomState.FlagsOf(args)
      && (FindByName(entries, name).Some? ==> e.value.id == FindByName(entries, name).value.id)
      && (FindByName(entries, name).None? ==> e.value == NewEntry(args))
    ensures name != args.channel ==>
      FindByName(UpdateChannels(entries, args), name) == FindByName(entries, name)
  {
    var r := UpdateChannels(entries, args);
    if FindByName(entries, args.channel).None? {
      FindByNameAppend(entries, NewEntry(args), name);
    } else {
      FindByNameUpdated(entries, args, name);
    }
  }

  lemma {:induction false} FindByNameAppend(entries: seq<ChannelEntry>, e: ChannelEntry, name: string)
    ensures FindByName(entries + [e], name)
         == if FindByName(entries, name).Some? then FindByName(entries, name)
            else if e.name == name then Some(e) else None
  {
    if entries != [] {
      assert (entries + [e])[1..] == entries[1..] + [e];
      FindByNameAppend(entries[1..], e, name);
    } else {
      assert ([e])[1..] == [];
    }
  }

  lemma {:induction false} FindByNameUpdated(entries: seq<ChannelEntry>, args: RoomState.RoomstateArgs, name: string)
    requires FindByName(entries, args.channel).Some?
    ensures var r := UpdateChannels(entries, args);
      if name == args.channel then
        FindByName(r, name) == Some(FindByName(entries, name).value.(flags := RoomState.FlagsOf(args)))
      else FindByName(r, name) == FindByName(entries, name)
  {
    var r := UpdateChannels(entries, args);
    if entries[0].name != args.channel {
      var tail := entries[1..];
      FindByNameUpdated(tail, args, name);
      assert r[1..] == UpdateChannels(tail, args);
    } else if name != args.channel && entries[0].name != name {
      var tail := entries[1..];
      if FindByName(tail, args.channel).Some? {
        FindByNameUpdated(tail, args, name);
        assert r[1..] == UpdateChannels(tail, args);
      } else {
        FindByNameUnchanged(tail, args, name);
        assert r[1..] == seq(|tail|, i requires 0 <= i < |tail| => tail[i]);
        assert r[1..] == tail;
      }
    }
  }

  lemma {:induction false} FindByNameUnchanged(entries: seq<ChannelEntry>, args: RoomState.RoomstateArgs, name: string)
    requires FindByName(entries, args.channel).None?
    ensures seq(|entries|, i requires 0 <= i < |entries| =>
      if entries[i].name == args.channel then entries[i].(flags := RoomState.FlagsOf(args)) else entries[i]) == entries
  {
    assert forall i :: 0 <= i < |entries| ==> entries[i] in entries;
  }

  // ---------------------------------------------------------------------
  // The retained channel list (`_ircChannels`)
  // ---------------------------------------------------------------------

  /** `List.Remove(x)`: the first occurrence goes, if there is one. */
  function RemoveFirst(xs: seq<string>, x: string): (r: seq<string>)
    ensures x in xs ==> multiset(r) == multiset(xs) - multiset{x}
    ensures x !in xs ==> r == xs
  {
    if xs == [] then []
    else if xs[0] == x then
      assert xs == [xs[0]] + xs[1..];
      xs[1..]
    else
      assert xs == [xs[0]] + xs[1..];
      [xs[0]] + RemoveFirst(xs[1..], x)
  }

  // ---------------------------------------------------------------------
  // Operations
  // ---------------------------------------------------------------------

  /**
   * `SendAsync(channel, message)`: not connected, then anonymous, then an
   * unknown channel are refused, in that order; otherwise the message goes
   * to the channel's stored prefixed name.
   */
  function Send(s: ClientState, channel: string, message: string): (r: Outcome)
    ensures r.error.Some? ==> r.state == s
    ensures r.error == Some(ClientNotConnected) <==> !s.connected
    ensures r.error == Some(AnonymousClient) <==> s.connected && s.anonymous
    ensures r.error == Some(NotConnectedToTheChannel) <==>
      s.connected && !s.anonymous && forall e :: e in s.channels ==> e.name != channel
    ensures r.error.None? ==> exists e :: (e in s.channels && e.name == channel
      && r.state == s.(outbound := s.outbound + [PrivMsg(e.prefixedName, message)]))
  {
    if !s.connected then Fail(s, ClientNotConnected)
    else if s.anonymous then Fail(s, AnonymousClient)
    else match FindByName(s.channels, channel)
      case None => Fail(s, NotConnectedToTheChannel)
      case Some(e) => Done(s.(outbound := s.outbound + [PrivMsg(e.prefixedName, message)]))
  }

  /** `SendAsync(channelId, message)`: the same checks, the channel looked up by id. */
  function SendById(s: ClientState, channelId: Int64, message: string): (r: Outcome)
    ensures r.error.Some? ==> r.state == s
    ensures r.error == Some(ClientNotConnected) <==> !s.connected
    ensures r.error == Some(AnonymousClient) <==> s.connected && s.anonymous
    ensures r.error == Some(NotConnectedToTheChannel) <==>
      s.connected && !s.anonymous && forall e :: e in s.channels ==> e.id != channelId
    ensures r.error.None? ==> exists e :: (e in s.channels && e.id == channelId
      && r.state == s.(outbound := s.outbound + [PrivMsg(e.prefixedName, message)]))
  {
    if !s.connected then Fail(s, ClientNotConnected)
    else if s.anonymous then Fail(s, AnonymousClient)
    else match FindById(s.channels, channelId)
      case None => Fail(s, NotConnectedToTheChannel)
      case Some(e) => Done(s.(outbound := s.outbound + [PrivMsg(e.prefixedName, message)]))
  }

  /** `SendRawAsync(raw)`: needs a connection only, so anonymous clients may use it. */
  function SendRaw(s: ClientState, raw: string): (r: Outcome)
    ensures r.error.Some? <==> !s.connected
    ensures r.error.Some? ==> r == Fail(s, ClientNotConnected)
    ensures r.error.None? ==> r.state == s.(outbound := s.outbound + [Raw(raw)])
  {
    if !s.connected then Fail(s, ClientNotConnected)
    else Done(s.(outbound := s.outbound + [Raw(raw)]))
  }

  /** `ConnectAsync()`: nothing when connected; otherwise connects with the retained channels. */
  function Connect(s: ClientState): (r: Outcome)
  {
    if s.connected then Done(s)
    else Done(s.(connected := true, outbound := s.outbound + [ConnectCommand(s.retained)]))
  }

  /** `DisconnectAsync()`: nothing when disconnected; otherwise disconnects and forgets the joined channels. */
  function Disconnect(s: ClientState): (r: Outcome)
  {
    if !s.connected then Done(s)
    else Done(s.(connected := false, channels := [], outbound := s.outbound + [DisconnectCommand]))
  }

  /** Both are no-ops the second time, and never throw. */
  lemma ConnectDisconnectIdempotent(s: ClientState)
    ensures Connect(s).error.None? && Disconnect(s).error.None?
    ensures Connect(Connect(s).state) == Connect(s)
    ensures Disconnect(Disconnect(s).state) == Disconnect(s)
    ensures Connect(s).state.connected && !Disconnect(s).state.connected
    ensures Disconnect(s).state.retained == s.retained && Disconnect(s).state.channels == (if s.connected then [] else s.channels)
  {
  }

  /**
   * `JoinChannelAsync(channel)`: validates first; then always retains the
   * formatted name and sends a join only when connected.
   */
  function Join(s: ClientState, channel: string): (r: Outcome)
    ensures FormatChannel(channel, true).Failure? ==> r == Fail(s, Format)
    ensures FormatChannel(channel, true).Success? ==>
      var name := FormatChannel(channel, true).value;
      r == Done(s.(retained := s.retained + [name],
                   outbound := s.outbound + if s.connected then [JoinCommand(name)] else []))
  {
    match FormatChannel(channel, true)
    case Failure(_) => Fail(s, Format)
    case Success(name) =>
      var s' := s.(retained := s.retained + [name]);
      if s.connected then Done(s'.(outbound := s.outbound + [JoinCommand(name)])) else Done(s')
  }

  /** `JoinChannelsAsync(channels)`: one join after another, up to the first that throws. */
  function JoinAll(s: ClientState, channels: seq<string>): (r: Outcome)
    ensures r.state.connected == s.connected && r.state.anonymous == s.anonymous
    ensures r.state.channels == s.channels
    ensures s.retained <= r.state.retained && s.outbound <= r.state.outbound
    decreases |channels|
  {
    if channels == [] then Done(s)
    else
      var o := Join(s, channels[0]);
      if o.error.Some? then o else JoinAll(o.state, channels[1..])
  }

  /**
   * `LeaveChannelAsync(channel)`: nothing at all when the retained list is
   * empty (not even validation); otherwise validates, drops the formatted
   * name from the retained list and the caller's name from the registry, and
   * sends a leave for the caller's name when connected.
   */
  function Leave(s: ClientState, channel: string): (r: Outcome)
    ensures |s.retained| == 0 ==> r == Done(s)
    ensures |s.retained| > 0 && FormatChannel(channel, true).Failure? ==> r == Fail(s, Format)
    ensures |s.retained| > 0 && FormatChannel(channel, true).Success? ==>
      var name := FormatChannel(channel, true).value;
      r == Done(s.(retained := RemoveFirst(s.retained, name),
                   channels := RemoveByName(s.channels, channel),
                   outbound := s.outbound + if s.connected then [PartCommand(channel)] else []))
  {
    if |s.retained| == 0 then Done(s)
    else match FormatChannel(channel, true)
      case Failure(_) => Fail(s, Format)
      case Success(name) =>
        var s' := s.(retained := RemoveFirst(s.retained, name), channels := RemoveByName(s.channels, channel));
        if s.connected then Done(s'.(outbound := s.outbound + [PartCommand(channel)])) else Done(s')
  }

  /** `LeaveChannelsAsync(channels)`: one leave after another, up to the first that throws. */
  function LeaveAll(s: ClientState, channels: seq<string>): (r: Outcome)
    ensures r.state.connected == s.connected && r.state.anonymous == s.anonymous
    ensures multiset(r.state.retained) <= multiset(s.retained) && s.outbound <= r.state.outbound
    decreases |channels|
  {
    if channels == [] then Done(s)
    else
      var o := Leave(s, channels[0]);
      LeaveShrinks(s, channels[0]);
      if o.error.Some? then o else LeaveAll(o.state, channels[1..])
  }

  /** One leave keeps the connection and the login kind, only removes retained names, and only appends commands. */
  lemma LeaveShrinks(s: ClientState, channel: string)
    ensures var r := Leave(s, channel);
      && r.state.connected == s.connected && r.state.anonymous == s.anonymous
      && multiset(r.state.retained) <= multiset(s.retained) && s.outbound <= r.state.outbound
  {
    if |s.retained| > 0 && FormatChannel(channel, true).Success? {
      RemoveFirstShrinks(s.retained, FormatChannel(channel, true).value);
    }
  }

  /**
   * `LeaveChannelsAsync()`: when connected, leaves every retained channel;
   * then empties both the registry and the retained list.
   */
  function LeaveEverything(s: ClientState): (r: Outcome)
    ensures r.error.None? ==> r.state.retained == [] && r.state.channels == []
    ensures r.state.connected == s.connected && s.outbound <= r.state.outbound
  {
    var o := if s.connected then LeaveAll(s, s.retained) else Done(s);
    if o.error.Some? then o else Done(o.state.(channels := [], retained := []))
  }

  /** The ROOMSTATE handler: `Channels.Update(args)`. */
  function OnRoomstate(s: ClientState, args: RoomState.RoomstateArgs): (r: Outcome)
    ensures r.error.None?
    ensures r.state == s.(channels := UpdateChannels(s.channels, args))
  {
    Done(s.(channels := UpdateChannels(s.channels, args)))
  }

  /** The PING handler: replies `"PONG :"` and the payload, through `SendRawAsync`. */
  function OnPing(s: ClientState, payload: string): (r: Outcome)
    ensures r.error.Some? <==> !s.connected
    ensures r.error.None? ==> r.state.outbound == s.outbound + [Raw("PONG :" + payload)]
  {
    SendRaw(s, PongPrefix + payload)
  }

  // ---------------------------------------------------------------------
  // The `IEnumerable<string>` overloads
  // ---------------------------------------------------------------------

  /**
   * `JoinChannelsAsync(IEnumerable<string>)` as written: when the sequence
   * exposes a memory view it is joined through it, and then, with no return
   * in between, joined again through `ToArray()`.
   */
  function JoinEnumerableAsWritten(s: ClientState, channels: seq<string>, hasMemoryView: bool): (r: Outcome)
    ensures r == JoinAll(s, if hasMemoryView then channels + channels else channels)
  {
    JoinAllAppend(s, channels, channels);
    var o := if hasMemoryView then JoinAll(s, channels) else Done(s);
    if o.error.Some? then o else JoinAll(o.state, channels)
  }

  /** `LeaveChannelsAsync(IEnumerable<string>)` as written, with the same missing return. */
  function LeaveEnumerableAsWritten(s: ClientState, channels: seq<string>, hasMemoryView: bool): (r: Outcome)
    ensures r == LeaveAll(s, if hasMemoryView then channels + channels else channels)
  {
    LeaveAllAppend(s, channels, channels);
    var o := if hasMemoryView then LeaveAll(s, channels) else Done(s);
    if o.error.Some? then o else LeaveAll(o.state, channels)
  }

  /** Joining `a + b` is joining `a` and then, unless that threw, joining `b`. */
  lemma {:induction false} JoinAllAppend(s: ClientState, a: seq<string>, b: seq<string>)
    ensures JoinAll(s, a + b) == (var o := JoinAll(s, a); if o.error.Some? then o else JoinAll(o.state, b))
    decreases |a|
  {
    if a == [] {
      assert a + b == b;
    } else {
      assert (a + b)[0] == a[0] && (a + b)[1..] == a[1..] + b;
      var o := Join(s, a[0]);
      if o.error.None? {
        JoinAllAppend(o.state, a[1..], b);
      }
    }
  }

  /** Leaving `a + b` is leaving `a` and then, unless that threw, leaving `b`. */
  lemma {:induction false} LeaveAllAppend(s: ClientState, a: seq<string>, b: seq<string>)
    ensures LeaveAll(s, a + b) == (var o := LeaveAll(s, a); if o.error.Some? then o else LeaveAll(o.state, b))
    decreases |a|
  {
    if a == [] {
      assert a + b == b;
    } else {
      assert (a + b)[0] == a[0] && (a + b)[1..] == a[1..] + b;
      var o := Leave(s, a[0]);
      if o.error.None? {
        LeaveAllAppend(o.state, a[1..], b);
      }
    }
  }

  /** A list of one valid channel, joined as written: it is retained and joined twice. */
  lemma JoinEnumerableJoinsTwice()
    ensures var s := Initial(false).(connected := true);
      var o := JoinEnumerableAsWritten(s, ["Abc"], true);
      o.error.None? && o.state.retained == ["#abc", "#abc"]
      && o.state.outbound == [JoinCommand("#abc"), JoinCommand("#abc")]
  {
    FormatAbc();
    var s := Initial(false).(connected := true);
    var cs := ["Abc"];
    assert cs[1..] == [];
    var s1 := Join(s, "Abc").state;
    assert JoinAll(s, cs) == Done(s1);
    assert s1.retained == ["#abc"] && s1.outbound == [JoinCommand("#abc")];
    var s2 := Join(s1, "Abc").state;
    assert JoinAll(s1, cs) == Done(s2);
    assert s2.retained == ["#abc"] + ["#abc"];
  }

  /**
   * A connected client that also retains another channel, leaving a list of
   * one channel as written, sends two leaves for it.
   */
  lemma LeaveEnumerableLeavesTwice()
    ensures var s := Initial(false).(connected := true, retained := ["#abc", "#xyz"]);
      var o := LeaveEnumerableAsWritten(s, ["abc"], true);
      o.error.None? && o.state.outbound == [PartCommand("abc"), PartCommand("abc")]
  {
    FormatAbc();
    var s := Initial(false).(connected := true, retained := ["#abc", "#xyz"]);
    var cs := ["abc"];
    assert cs[1..] == [];
    var s1 := Leave(s, "abc").state;
    assert LeaveAll(s, cs) == Done(s1);
    assert s1.retained == ["#xyz"] by {
      assert "#abc" != "#xyz" by { assert "#abc"[1] != "#xyz"[1]; }
      assert RemoveFirst(s.retained, "#abc") == s.retained[1..];
    }
    assert s1.outbound == [PartCommand("abc")];
    var s2 := Leave(s1, "abc").state;
    assert LeaveAll(s1, cs) == Done(s2);
    assert s2.outbound == [PartCommand("abc")] + [PartCommand("abc")];
  }

  // ---------------------------------------------------------------------
  // `LeaveChannelsAsync()` over the retained list's own memory
  // ---------------------------------------------------------------------

  /**
   * The retained list's backing buffer after one step of the loop. When the
   * step removed a name, the live names sit shifted down at the front; the
   * slot they vacated at the end either keeps its old value or is cleared
   * (`""` stands for null, as `clear` says); the slots beyond are untouched.
   */
  function BufferAfter(buffer: seq<string>, before: seq<string>, after: seq<string>, clear: bool): (r: seq<string>)
    ensures |r| == |buffer|
    ensures |after| + 1 == |before| <= |buffer| ==> r[..|after|] == after
  {
    if |after| + 1 == |before| <= |buffer| then
      after + [if clear then "" else buffer[|before| - 1]] + buffer[|before|..]
    else buffer
  }

  /**
   * `LeaveChannelsAsync(ReadOnlyMemory<string>)` run over
   * `_ircChannels.AsMemory()`: slot `i` of a view of `count` slots is read
   * from the buffer that the leaves themselves keep shifting.
   */
  function LeaveViewAsWritten(s: ClientState, buffer: seq<string>, i: nat, count: nat, clear: bool): Outcome
    decreases count - i
  {
    if i >= count || i >= |buffer| then Done(s)
    else
      var o := Leave(s, buffer[i]);
      if o.error.Some? then o
      else LeaveViewAsWritten(o.state, BufferAfter(buffer, s.retained, o.state.retained, clear), i + 1, count, clear)
  }

  /**
   * `LeaveChannelsAsync()` as written: when connected, the loop runs over a
   * view of the retained list's own buffer rather than over a copy.
   */
  function LeaveEverythingAsWritten(s: ClientState, clear: bool): (r: Outcome)
    ensures !s.connected ==> r == LeaveEverything(s)
    ensures r.error.None? ==> r.state.retained == [] && r.state.channels == []
  {
    var o := if s.connected then LeaveViewAsWritten(s, s.retained, 0, |s.retained|, clear) else Done(s);
    if o.error.Some? then o else Done(o.state.(channels := [], retained := []))
  }

  lemma FormatSamples()
    ensures FormatChannel("#aaa", true) == Success("#aaa")
    ensures FormatChannel("#bbb", true) == Success("#bbb")
    ensures FormatChannel("#ccc", true) == Success("#ccc")
  {
    assert IsWordName("aaa") && IsWordName("bbb") && IsWordName("ccc");
    assert StripPrefix("#aaa") == "aaa" && StripPrefix("#bbb") == "bbb" && StripPrefix("#ccc") == "ccc";
    assert Lower("aaa") == "aaa" && Lower("bbb") == "bbb" && Lower("ccc") == "ccc";
    assert [ChannelPrefix] + "aaa" == "#aaa" && [ChannelPrefix] + "bbb" == "#bbb" && [ChannelPrefix] + "ccc" == "#ccc";
  }

  /** Three different names, each already in the form `FormatChannel` gives it. */
  predicate ThreeFormatted(a: string, b: string, c: string)
  {
    && FormatChannel(a, true) == Success(a)
    && FormatChannel(b, true) == Success(b)
    && FormatChannel(c, true) == Success(c)
    && a != b && b != c && a != c
  }

  /** A connected client with an empty registry that retains `kept` and has sent `sent`. */
  function Connected(kept: seq<string>, sent: seq<Command>): ClientState
  {
    ClientState(true, false, kept, [], sent)
  }

  /** A leave of an already formatted name on a connected client with an empty registry. */
  lemma LeaveFormatted(s: ClientState, name: string)
    requires s.connected && |s.retained| > 0 && s.channels == []
    requires FormatChannel(name, true) == Success(name)
    ensures Leave(s, name) == Done(s.(retained := RemoveFirst(s.retained, name), outbound := s.outbound + [PartCommand(name)]))
  {
    assert RemoveByName([], name) == [];
  }

  lemma LeaveFirstOfThree(a: string, b: string, c: string)
    requires ThreeFormatted(a, b, c)
    ensures Leave(Connected([a, b, c], []), a) == Done(Connected([b, c], [PartCommand(a)]))
  {
    LeaveFormatted(Connected([a, b, c], []), a);
    assert RemoveFirst([a, b, c], a) == [b, c];
  }

  lemma LeaveThirdOfTwo(a: string, b: string, c: string)
    requires ThreeFormatted(a, b, c)
    ensures Leave(Connected([b, c], [PartCommand(a)]), c) == Done(Connected([b], [PartCommand(a), PartCommand(c)]))
  {
    LeaveFormatted(Connected([b, c], [PartCommand(a)]), c);
    assert [b, c][1..] == [c];
    assert RemoveFirst([c], c) == [];
    assert RemoveFirst([b, c], c) == [b];
  }

  lemma LeaveSecondOfTwo(a: string, b: string, c: string)
    requires ThreeFormatted(a, b, c)
    ensures Leave(Connected([b, c], [PartCommand(a)]), b) == Done(Connected([c], [PartCommand(a), PartCommand(b)]))
  {
    LeaveFormatted(Connected([b, c], [PartCommand(a)]), b);
    assert RemoveFirst([b, c], b) == [c];
  }

  lemma LeaveThirdAgain(a: string, b: string, c: string)
    requires ThreeFormatted(a, b, c)
    ensures Leave(Connected([b], [PartCommand(a), PartCommand(c)]), c)
         == Done(Connected([b], [PartCommand(a), PartCommand(c), PartCommand(c)]))
  {
    LeaveFormatted(Connected([b], [PartCommand(a), PartCommand(c)]), c);
    assert RemoveFirst([b], c) == [b];
  }

  lemma LeaveLast(a: string, b: string, c: string)
    requires ThreeFormatted(a, b, c)
    ensures Leave(Connected([c], [PartCommand(a), PartCommand(b)]), c)
         == Done(Connected([], [PartCommand(a), PartCommand(b), PartCommand(c)]))
  {
    LeaveFormatted(Connected([c], [PartCommand(a), PartCommand(b)]), c);
    assert RemoveFirst([c], c) == [];
  }

  /** One step of the loop as written that succeeds. */
  lemma LeaveViewStep(s: ClientState, buffer: seq<string>, i: nat, count: nat, clear: bool, next: ClientState)
    requires i < count && i < |buffer| && Leave(s, buffer[i]) == Done(next)
    ensures LeaveViewAsWritten(s, buffer, i, count, clear)
         == LeaveViewAsWritten(next, BufferAfter(buffer, s.retained, next.retained, clear), i + 1, count, clear)
  {
  }

  /** Two successful steps of the loop as written over a three-slot view. */
  lemma LeaveViewTwoSteps(s0: ClientState, s1: ClientState, s2: ClientState,
                          buf0: seq<string>, buf1: seq<string>, buf2: seq<string>, clear: bool)
    requires |buf0| == 3 && Leave(s0, buf0[0]) == Done(s1)
    requires buf1 == BufferAfter(buf0, s0.retained, s1.retained, clear) && Leave(s1, buf1[1]) == Done(s2)
    requires buf2 == BufferAfter(buf1, s1.retained, s2.retained, clear)
    ensures LeaveViewAsWritten(s0, buf0, 0, 3, clear) == LeaveViewAsWritten(s2, buf2, 2, 3, clear)
  {
    LeaveViewStep(s0, buf0, 0, 3, clear, s1);
    LeaveViewStep(s1, buf1, 1, 3, clear, s2);
  }

  /** After the first leave, the live names move down one slot and the last slot is stale or cleared. */
  lemma BufferAfterFirst(a: string, b: string, c: string, clear: bool)
    ensures BufferAfter([a, b, c], [a, b, c], [b, c], clear) == [b, c, if clear then "" else c]
  {
  }

  /** After the second leave, slot 1 holds what slot 2 held. */
  lemma BufferAfterSecond(b: string, c: string, clear: bool)
    ensures var x := if clear then "" else c;
      BufferAfter([b, c, x], [b, c], [b], clear) == [b, x, x]
  {
  }

  /** The first two steps of the loop as written read `a` and then `c`, never `b`. */
  lemma AsWrittenFirstSteps(a: string, b: string, c: string, clear: bool)
    requires ThreeFormatted(a, b, c)
    ensures var x := if clear then "" else c;
      LeaveViewAsWritten(Connected([a, b, c], []), [a, b, c], 0, 3, clear)
      == LeaveViewAsWritten(Connected([b], [PartCommand(a), PartCommand(c)]), [b, x, x], 2, 3, clear)
  {
    var x := if clear then "" else c;
    LeaveFirstOfThree(a, b, c);
    LeaveThirdOfTwo(a, b, c);
    BufferAfterFirst(a, b, c, clear);
    BufferAfterSecond(b, c, clear);
    LeaveViewTwoSteps(Connected([a, b, c], []), Connected([b, c], [PartCommand(a)]),
                      Connected([b], [PartCommand(a), PartCommand(c)]), [a, b, c], [b, c, x], [b, x, x], clear);
  }

  /** The third step reads the slot left behind: a cleared one throws, a stale one leaves `c` again. */
  lemma AsWrittenLastStep(a: string, b: string, c: string, clear: bool)
    requires ThreeFormatted(a, b, c)
    ensures var x := if clear then "" else c;
      var s := Connected([b], [PartCommand(a), PartCommand(c)]);
      LeaveViewAsWritten(s, [b, x, x], 2, 3, clear)
      == if clear then Fail(s, Format) else Done(Connected([b], [PartCommand(a), PartCommand(c), PartCommand(c)]))
  {
    if clear {
      assert !ChannelPatternAsWritten("");
    } else {
      LeaveThirdAgain(a, b, c);
    }
  }

  /** Three successful leaves in a row make up `LeaveAll` over the three names. */
  lemma LeaveAllThree(s0: ClientState, s1: ClientState, s2: ClientState, s3: ClientState, a: string, b: string, c: string)
    requires Leave(s0, a) == Done(s1) && Leave(s1, b) == Done(s2) && Leave(s2, c) == Done(s3)
    ensures LeaveAll(s0, [a, b, c]) == Done(s3)
  {
    assert [c][1..] == [];
    assert LeaveAll(s2, [c]) == Done(s3);
    assert [b, c][1..] == [c];
    assert LeaveAll(s1, [b, c]) == Done(s3);
    assert [a, b, c][1..] == [b, c];
  }

  /** The snapshot loop leaves `a`, `b` and `c` in turn. */
  lemma SnapshotLeavesAll(a: string, b: string, c: string)
    requires ThreeFormatted(a, b, c)
    ensures LeaveAll(Connected([a, b, c], []), [a, b, c])
         == Done(Connected([], [PartCommand(a), PartCommand(b), PartCommand(c)]))
  {
    LeaveFirstOfThree(a, b, c);
    LeaveSecondOfTwo(a, b, c);
    LeaveLast(a, b, c);
    LeaveAllThree(Connected([a, b, c], []), Connected([b, c], [PartCommand(a)]),
                  Connected([c], [PartCommand(a), PartCommand(b)]),
                  Connected([], [PartCommand(a), PartCommand(b), PartCommand(c)]), a, b, c);
  }

  /**
   * Leaving everything as written on a connected client retaining three
   * formatted names `a`, `b`, `c`: after `a` goes, slot 1 holds `c`, so `b`
   * never gets a leave. With a stale last slot `c` is left twice and both
   * lists are cleared; with a cleared slot the third step reads null,
   * throws `FormatException`, and `b` stays retained. The snapshot loop
   * leaves all three.
   */
  lemma LeaveEverythingAsWrittenSkips(a: string, b: string, c: string, clear: bool)
    requires ThreeFormatted(a, b, c)
    ensures var o := LeaveEverythingAsWritten(Connected([a, b, c], []), clear);
      && (!clear ==> o.error.None? && o.state.outbound == [PartCommand(a), PartCommand(c), PartCommand(c)])
      && (clear ==> o.error == Some(Format) && o.state.retained == [b]
                    && o.state.outbound == [PartCommand(a), PartCommand(c)])
    ensures LeaveEverything(Connected([a, b, c], [])).state.outbound == [PartCommand(a), PartCommand(b), PartCommand(c)]
  {
    AsWrittenFirstSteps(a, b, c, clear);
    AsWrittenLastStep(a, b, c, clear);
    SnapshotLeavesAll(a, b, c);
  }

  /** Whether the freed slot is cleared or not, the loop as written never leaves `b`. */
  lemma MiddleNeverLeft(a: string, b: string, c: string, clear: bool)
    requires ThreeFormatted(a, b, c)
    ensures PartCommand(b) !in LeaveEverythingAsWritten(Connected([a, b, c], []), clear).state.outbound
  {
    LeaveEverythingAsWrittenSkips(a, b, c, clear);
    PartsOfOthers(LeaveEverythingAsWritten(Connected([a, b, c], []), clear).state.outbound, a, b, c);
  }

  lemma PartsOfOthers(sent: seq<Command>, a: string, b: string, c: string)
    requires b != a && b != c
    requires sent == [PartCommand(a), PartCommand(c), PartCommand(c)] || sent == [PartCommand(a), PartCommand(c)]
    ensures PartCommand(b) !in sent
  {
  }

  /** "#aaa", "#bbb" and "#ccc" meet the precondition of `LeaveEverythingAsWrittenSkips`. */
  lemma SampleNamesFormatted()
    ensures ThreeFormatted("#aaa", "#bbb", "#ccc")
  {
    FormatSamples();
    assert "#aaa"[1] != "#bbb"[1] && "#bbb"[1] != "#ccc"[1] && "#aaa"[1] != "#ccc"[1];
  }

  /**
   * A name with a final line feed passes `FormatChannel`, so a connected
   * client retains and joins "#abc\n"; leaving "abc\n" afterwards drops
   * one copy again and sends a part for "abc\n".
   */
  lemma JoinLeaveLineFeed(s: ClientState)
    requires s.connected
    ensures var j := Join(s, "abc" + "\n");
      && j == Done(s.(retained := s.retained + ["#abc" + "\n"],
                      outbound := s.outbound + [JoinCommand("#abc" + "\n")]))
      && var l := Leave(j.state, "abc" + "\n");
      && l.error.None?
      && multiset(l.state.retained) == multiset(s.retained)
      && l.state.channels == RemoveByName(s.channels, "abc" + "\n")
      && l.state.outbound == j.state.outbound + [PartCommand("abc" + "\n")]
  {
    FormatChannelAcceptsLineFeed();
    var j := Join(s, "abc" + "\n");
    assert "#abc" + "\n" in j.state.retained;
  }

  lemma FormatAbc()
    ensures FormatChannel("Abc", true) == Success("#abc")
    ensures FormatChannel("abc", true) == Success("#abc")
  {
    assert IsWordName("Abc") && IsWordName("abc");
    assert Lower("Abc") == "abc";
    assert Lower("abc") == "abc";
    assert [ChannelPrefix] + "abc" == "#abc";
  }

  /** The formatted name of a valid channel; an invalid one is kept as it is. */
  function FormattedName(channel: string): (r: string)
    ensures FormatChannel(channel, true).Success? ==> r == FormatChannel(channel, true).value
  {
    match FormatChannel(channel, true)
    case Success(name) => name
    case Failure(_) => channel
  }

  /** The formatted names of a list of channels, in order. */
  function FormattedAll(channels: seq<string>): seq<string>
  {
    if channels == [] then []
    else [FormattedName(channels[0])] + FormattedAll(channels[1..])
  }

  /** The intended behaviour, `JoinAll` once: every valid channel is retained exactly once, in order. */
  lemma {:induction false} JoinAllRetainsOnce(s: ClientState, channels: seq<string>)
    requires forall i :: 0 <= i < |channels| ==> FormatChannel(channels[i], true).Success?
    ensures JoinAll(s, channels).error.None?
    ensures JoinAll(s, channels).state.retained == s.retained + FormattedAll(channels)
    ensures JoinAll(s, channels).state.channels == s.channels
    ensures !s.connected ==> JoinAll(s, channels).state.outbound == s.outbound
    decreases |channels|
  {
    if channels != [] {
      var rest := channels[1..];
      var s' := JoinValid(s, channels[0]);
      JoinAllUnfold(s, channels, s');
      assert forall i :: 0 <= i < |rest| ==> rest[i] == channels[i + 1];
      JoinAllRetainsOnce(s', rest);
      FormattedAllCons(s.retained, channels);
    }
  }

  /** Joining one valid channel succeeds, retains its formatted name and leaves the registry alone. */
  lemma JoinValid(s: ClientState, channel: string) returns (s': ClientState)
    requires FormatChannel(channel, true).Success?
    ensures Join(s, channel) == Done(s')
    ensures s'.retained == s.retained + [FormattedName(channel)]
    ensures s'.channels == s.channels && s'.connected == s.connected
    ensures !s.connected ==> s'.outbound == s.outbound
  {
    s' := Join(s, channel).state;
  }

  lemma JoinAllUnfold(s: ClientState, channels: seq<string>, s': ClientState)
    requires channels != [] && Join(s, channels[0]) == Done(s')
    ensures JoinAll(s, channels) == JoinAll(s', channels[1..])
  {
  }

  lemma FormattedAllCons(retained: seq<string>, channels: seq<string>)
    requires channels != []
    ensures (retained + [FormattedName(channels[0])]) + FormattedAll(channels[1..])
         == retained + FormattedAll(channels)
  {
  }

  // ---------------------------------------------------------------------
  // Invariants over any sequence of operations
  // ---------------------------------------------------------------------

  datatype Op =
    | SendOp(channel: string, message: string)
    | SendByIdOp(channelId: Int64, message: string)
    | SendRawOp(raw: string)
    | ConnectOp
    | JoinOp(channels: seq<string>)
    | LeaveOp(channels: seq<string>)
    | LeaveEverythingOp
    | DisconnectOp
    | RoomstateOp(args: RoomState.RoomstateArgs)
    | PingOp(payload: string)

  function Apply(s: ClientState, op: Op): Outcome
  {
    match op
    case SendOp(c, m) => Send(s, c, m)
    case SendByIdOp(id, m) => SendById(s, id, m)
    case SendRawOp(raw) => SendRaw(s, raw)
    case ConnectOp => Connect(s)
    case JoinOp(cs) => JoinAll(s, cs)
    case LeaveOp(cs) => LeaveAll(s, cs)
    case LeaveEverythingOp => LeaveEverything(s)
    case DisconnectOp => Disconnect(s)
    case RoomstateOp(args) => OnRoomstate(s, args)
    case PingOp(payload) => OnPing(s, payload)
  }

  /** The state after each operation in turn; a thrown exception does not stop the caller. */
  function Run(s: ClientState, ops: seq<Op>): ClientState
    decreases |ops|
  {
    if ops == [] then s else Run(Apply(s, ops[0]).state, ops[1..])
  }

  predicate RetainedFormatted(s: ClientState)
  {
    forall x :: x in s.retained ==> FormatChannel(x, true) == Success(x)
  }

  /**
   * What every reachable state keeps: retained names are formatted names,
   * chat messages go only to '#'-prefixed names, and an anonymous client has
   * never sent a chat message.
   */
  predicate Inv(s: ClientState)
  {
    && RetainedFormatted(s)
    && (forall e :: e in s.channels ==> |e.prefixedName| > 0 && e.prefixedName[0] == ChannelPrefix)
    && (forall c :: c in s.outbound && c.PrivMsg? ==> |c.channel| > 0 && c.channel[0] == ChannelPrefix)
    && (s.anonymous ==> forall c :: c in s.outbound ==> !c.PrivMsg?)
  }

  /** The step keeps the invariant, the login kind, and only appends commands. */
  predicate Keeps(s: ClientState, s': ClientState)
  {
    Inv(s') && s'.anonymous == s.anonymous && s.outbound <= s'.outbound
    && forall c :: c in s'.outbound[|s.outbound|..] ==> !c.PrivMsg?
  }

  lemma JoinKeeps(s: ClientState, channel: string)
    requires Inv(s)
    ensures Keeps(s, Join(s, channel).state)
  {
    var s' := Join(s, channel).state;
    if FormatChannel(channel, true).Success? {
      var name := FormatChannel(channel, true).value;
      FormatChannelIdempotent(channel, true);
      AppendsNonChat(s, s', if s.connected then [JoinCommand(name)] else []);
    } else {
      AppendsNonChat(s, s', []);
    }
  }

  lemma LeaveKeeps(s: ClientState, channel: string)
    requires Inv(s)
    ensures Keeps(s, Leave(s, channel).state)
  {
    var s' := Leave(s, channel).state;
    if |s.retained| > 0 && FormatChannel(channel, true).Success? {
      RemoveFirstShrinks(s.retained, FormatChannel(channel, true).value);
      RemovedStaysFormatted(s, s');
      AppendsNonChat(s, s', if s.connected then [PartCommand(channel)] else []);
    } else {
      AppendsNonChat(s, s', []);
    }
  }

  /** A step that keeps the retained names formatted, only drops channels and only appends non-chat commands keeps the invariant. */
  lemma AppendsNonChat(s: ClientState, s': ClientState, extra: seq<Command>)
    requires Inv(s) && RetainedFormatted(s')
    requires s'.anonymous == s.anonymous
    requires forall e :: e in s'.channels ==> e in s.channels
    requires s'.outbound == s.outbound + extra
    requires forall c :: c in extra ==> !c.PrivMsg?
    ensures Keeps(s, s')
  {
    assert s'.outbound[|s.outbound|..] == extra;
  }

  lemma RemoveFirstShrinks(xs: seq<string>, x: string)
    ensures multiset(RemoveFirst(xs, x)) <= multiset(xs)
  {
  }

  lemma KeepsTransitive(s: ClientState, s': ClientState, s'': ClientState)
    requires Keeps(s, s') && Keeps(s', s'')
    ensures Keeps(s, s'')
  {
    assert s''.outbound[|s.outbound|..] == s'.outbound[|s.outbound|..] + s''.outbound[|s'.outbound|..];
  }

  lemma KeepsReflexive(s: ClientState)
    requires Inv(s)
    ensures Keeps(s, s)
  {
    assert s.outbound[|s.outbound|..] == [];
  }

  lemma {:induction false} JoinAllKeeps(s: ClientState, channels: seq<string>)
    requires Inv(s)
    ensures Keeps(s, JoinAll(s, channels).state)
    decreases |channels|
  {
    if channels == [] {
      KeepsReflexive(s);
    } else {
      var o := Join(s, channels[0]);
      JoinKeeps(s, channels[0]);
      if o.error.None? {
        JoinAllKeeps(o.state, channels[1..]);
        KeepsTransitive(s, o.state, JoinAll(o.state, channels[1..]).state);
      }
    }
  }

  lemma {:induction false} LeaveAllKeeps(s: ClientState, channels: seq<string>)
    requires Inv(s)
    ensures Keeps(s, LeaveAll(s, channels).state)
    decreases |channels|
  {
    if channels == [] {
      KeepsReflexive(s);
    } else {
      var o := Leave(s, channels[0]);
      LeaveKeeps(s, channels[0]);
      if o.error.None? {
        LeaveAllKeeps(o.state, channels[1..]);
        KeepsTransitive(s, o.state, LeaveAll(o.state, channels[1..]).state);
      }
    }
  }

  lemma SendKeeps(s: ClientState, o: Outcome, message: string)
    requires Inv(s)
    requires o.error.Some? ==> o.state == s
    requires o.error.Some? || !s.anonymous
    requires o.error.None? ==> exists e :: (e in s.channels
      && o.state == s.(outbound := s.outbound + [PrivMsg(e.prefixedName, message)]))
    ensures Keeps(s, o.state) || (o.error.None? && Inv(o.state) && o.state.anonymous == s.anonymous
      && s.outbound <= o.state.outbound)
  {
    if o.error.Some? {
      KeepsReflexive(s);
    } else {
      var e :| e in s.channels && o.state == s.(outbound := s.outbound + [PrivMsg(e.prefixedName, message)]);
    }
  }

  /** One operation keeps the invariant and only appends to what was sent. */
  lemma ApplyKeepsInv(s: ClientState, op: Op)
    requires Inv(s)
    ensures Inv(Apply(s, op).state)
    ensures Apply(s, op).state.anonymous == s.anonymous
    ensures s.outbound <= Apply(s, op).state.outbound
  {
    match op {
      case SendOp(c, m) => SendKeeps(s, Send(s, c, m), m);
      case SendByIdOp(id, m) => SendKeeps(s, SendById(s, id, m), m);
      case JoinOp(cs) => JoinAllKeeps(s, cs);
      case LeaveOp(cs) => LeaveAllKeeps(s, cs);
      case LeaveEverythingOp => LeaveEverythingKeeps(s);
      case RoomstateOp(args) => UpdateChannelsPrefixed(s.channels, args);
      case SendRawOp(raw) =>
        AppendsNonChat(s, SendRaw(s, raw).state, if s.connected then [Raw(raw)] else []);
      case PingOp(payload) =>
        AppendsNonChat(s, OnPing(s, payload).state, if s.connected then [Raw(PongPrefix + payload)] else []);
      case ConnectOp =>
        AppendsNonChat(s, Connect(s).state, if s.connected then [] else [ConnectCommand(s.retained)]);
      case DisconnectOp =>
        AppendsNonChat(s, Disconnect(s).state, if s.connected then [DisconnectCommand] else []);
    }
  }

  lemma LeaveEverythingKeeps(s: ClientState)
    requires Inv(s)
    ensures Inv(LeaveEverything(s).state)
    ensures LeaveEverything(s).state.anonymous == s.anonymous
    ensures s.outbound <= LeaveEverything(s).state.outbound
  {
    if s.connected {
      LeaveAllKeeps(s, s.retained);
    }
  }

  /** A ROOMSTATE update keeps every registered channel's prefixed name starting with '#'. */
  lemma UpdateChannelsPrefixed(entries: seq<ChannelEntry>, args: RoomState.RoomstateArgs)
    requires forall e :: e in entries ==> |e.prefixedName| > 0 && e.prefixedName[0] == ChannelPrefix
    ensures forall e :: e in UpdateChannels(entries, args) ==> |e.prefixedName| > 0 && e.prefixedName[0] == ChannelPrefix
  {
    var r := UpdateChannels(entries, args);
    forall e | e in r
      ensures |e.prefixedName| > 0 && e.prefixedName[0] == ChannelPrefix
    {
      if FindByName(entries, args.channel).Some? {
        var i :| 0 <= i < |r| && r[i] == e;
        assert entries[i] in entries;
      }
    }
  }

  /**
   * Over any sequence of operations from a fresh client: the invariant
   * holds, commands are only ever appended, and an anonymous client never
   * sends a chat message.
   */
  lemma {:induction false} RunKeepsInv(s: ClientState, ops: seq<Op>)
    requires Inv(s)
    ensures Inv(Run(s, ops))
    ensures Run(s, ops).anonymous == s.anonymous
    ensures s.outbound <= Run(s, ops).outbound
    decreases |ops|
  {
    if ops != [] {
      ApplyKeepsInv(s, ops[0]);
      RunKeepsInv(Apply(s, ops[0]).state, ops[1..]);
    }
  }

  lemma AnonymousClientNeverChats(ops: seq<Op>)
    ensures forall c :: c in Run(Initial(true), ops).outbound ==> !c.PrivMsg?
  {
    RunKeepsInv(Initial(true), ops);
  }

  // ---------------------------------------------------------------------
  // Join, leave and leave-everything
  // ---------------------------------------------------------------------

  /** Joining a valid channel and then leaving it gives back the retained channels, as a multiset. */
  lemma JoinThenLeave(s: ClientState, channel: string)
    requires FormatChannel(channel, true).Success?
    ensures var o := Leave(Join(s, channel).state, channel);
      o.error.None? && multiset(o.state.retained) == multiset(s.retained)
      && o.state.connected == s.connected
  {
    var name := FormatChannel(channel, true).value;
    var s' := Join(s, channel).state;
    assert s'.retained == s.retained + [name];
    assert name in s'.retained;
  }

  /** One leave command per channel, in order. */
  function Parts(channels: seq<string>): seq<Command>
  {
    if channels == [] then [] else [PartCommand(channels[0])] + Parts(channels[1..])
  }

  /**
   * Leaving names that are all formatted and all retained (with their
   * multiplicities) never throws: each leave removes one occurrence.
   */
  lemma {:induction false} LeaveAllRetained(s: ClientState, channels: seq<string>) returns (s'': ClientState)
    requires RetainedFormatted(s)
    requires multiset(channels) <= multiset(s.retained)
    ensures LeaveAll(s, channels) == Done(s'')
    ensures s''.connected == s.connected
    ensures s.connected ==> s''.outbound == s.outbound + Parts(channels)
    ensures !s.connected ==> s''.outbound == s.outbound
    ensures multiset(s''.retained) == multiset(s.retained) - multiset(channels)
    decreases |channels|
  {
    if channels == [] {
      s'' := s;
    } else {
      var x := channels[0];
      var rest := channels[1..];
      assert x in s.retained && multiset{x} + multiset(rest) <= multiset(s.retained)
        && multiset(channels) == multiset{x} + multiset(rest) by {
        assert channels == [x] + rest;
        assert multiset(s.retained)[x] >= multiset(channels)[x] > 0;
      }
      var s' := LeaveRetained(s, x);
      LeaveAllUnfold(s, channels, s');
      MultisetStep(multiset(s.retained), x, multiset(rest));
      s'' := LeaveAllRetained(s', rest);
      if s.connected {
        PartsCons(s.outbound, channels);
      }
    }
  }

  lemma LeaveAllUnfold(s: ClientState, channels: seq<string>, s': ClientState)
    requires channels != [] && Leave(s, channels[0]) == Done(s')
    ensures LeaveAll(s, channels) == LeaveAll(s', channels[1..])
  {
  }

  lemma PartsCons(sent: seq<Command>, channels: seq<string>)
    requires channels != []
    ensures (sent + [PartCommand(channels[0])]) + Parts(channels[1..]) == sent + Parts(channels)
  {
  }

  lemma MultisetStep(a: multiset<string>, x: string, b: multiset<string>)
    requires multiset{x} + b <= a
    ensures b <= a - multiset{x}
    ensures a - (multiset{x} + b) == (a - multiset{x}) - b
  {
  }

  /** Leaving one retained, formatted name: one occurrence goes, and a leave is sent when connected. */
  lemma LeaveRetained(s: ClientState, x: string) returns (s': ClientState)
    requires RetainedFormatted(s) && x in s.retained
    ensures Leave(s, x) == Done(s')
    ensures RetainedFormatted(s') && s'.connected == s.connected
    ensures multiset(s'.retained) == multiset(s.retained) - multiset{x}
    ensures s.connected ==> s'.outbound == s.outbound + [PartCommand(x)]
    ensures !s.connected ==> s'.outbound == s.outbound
  {
    assert FormatChannel(x, true) == Success(x);
    s' := Leave(s, x).state;
    RemovedStaysFormatted(s, s');
  }

  /** Removing retained names keeps the remaining ones formatted. */
  lemma RemovedStaysFormatted(s: ClientState, s': ClientState)
    requires RetainedFormatted(s)
    requires multiset(s'.retained) <= multiset(s.retained)
    ensures RetainedFormatted(s')
  {
    forall y | y in s'.retained
      ensures FormatChannel(y, true) == Success(y)
    {
      assert multiset(s'.retained)[y] > 0;
    }
  }

  /**
   * `LeaveChannelsAsync()` on a reachable state never throws: it leaves
   * every retained channel when connected, and empties both lists.
   */
  lemma LeaveEverythingClears(s: ClientState)
    requires Inv(s)
    ensures LeaveEverything(s).error.None?
    ensures LeaveEverything(s).state.retained == [] && LeaveEverything(s).state.channels == []
    ensures LeaveEverything(s).state.connected == s.connected
    ensures LeaveEverything(s).state.outbound == s.outbound + if s.connected then Parts(s.retained) else []
  {
    if s.connected {
      var _ := LeaveAllRetained(s, s.retained);
    }
  }
}
