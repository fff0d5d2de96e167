/**
 * Twitch/TwitchClient.cs, the client object itself. Its fields are the
 * components of a `ClientSpec.ClientState`; every method changes them
 * exactly as the matching step function says and returns the exception it
 * throws, if any. The underlying IRC connection is represented by the
 * connection flag and the log of commands handed to it.
 */
module Twitch {
  import opened Wrappers
  import opened ChannelNames
  import Spec = ClientSpec
  import Ints
  import RoomState

  class TwitchClient {
    const username: string
    /** `IsAnonymousLogin`. */
    const anonymous: bool
    /** `IsConnected`, the state of the underlying connection. */
    var connected: bool
    /** `_ircChannels`: the formatted names of the channels to be in. */
    var retained: seq<string>
    /** `Channels`: the channels a ROOMSTATE message has been seen for. */
    var channels: seq<Spec.ChannelEntry>
    /** The commands handed to the underlying connection, oldest first. */
    var outbound: seq<Spec.Command>

    function State(): Spec.ClientState
      reads this
    {
      Spec.ClientState(connected, anonymous, retained, channels, outbound)
    }

    /** `TwitchClient(options)`: the anonymous client, logged in as "justinfan123". */
    constructor Anonymous()
      ensures username == AnonymousUsername
      ensures State() == Spec.Initial(true)
    {
      username := AnonymousUsername;
      anonymous := true;
      connected := false;
      retained := [];
      channels := [];
      outbound := [];
    }

    /** The body of `TwitchClient(username, oAuthToken, options)` once the name is formatted. */
    constructor Login(formatted: string)
      ensures username == formatted
      ensures State() == Spec.Initial(false)
    {
      username := formatted;
      anonymous := false;
      connected := false;
      retained := [];
      channels := [];
      outbound := [];
    }

    /** `TwitchClient(ircClient)`: anonymous exactly when the login name matches `^justinfan[0-9]+$`. */
    constructor FromIrcClient(ircUsername: string)
      ensures username == ircUsername
      ensures State() == Spec.Initial(IsAnonymousLogin(ircUsername))
    {
      username := ircUsername;
      anonymous := IsAnonymousLogin(ircUsername);
      connected := false;
      retained := [];
      channels := [];
      outbound := [];
    }

    /** `SendAsync(channel, message)`. */
    method Send(channel: string, message: string) returns (err: Option<Spec.ClientError>)
      modifies this
      ensures Spec.Outcome(State(), err) == Spec.Send(old(State()), channel, message)
    {
      if !connected {
        return Some(Spec.ClientNotConnected);
      }
      if anonymous {
        return Some(Spec.AnonymousClient);
      }
      var entry := Spec.FindByName(channels, channel);
      if entry.None? {
        return Some(Spec.NotConnectedToTheChannel);
      }
      outbound := outbound + [Spec.PrivMsg(entry.value.prefixedName, message)];
      return None;
    }

    /** `SendAsync(channelId, message)`. */
    method SendById(channelId: Ints.Int64, message: string) returns (err: Option<Spec.ClientError>)
      modifies this
      ensures Spec.Outcome(State(), err) == Spec.SendById(old(State()), channelId, message)
    {
      if !connected {
        return Some(Spec.ClientNotConnected);
      }
      if anonymous {
        return Some(Spec.AnonymousClient);
      }
      var entry := Spec.FindById(channels, channelId);
      if entry.None? {
        return Some(Spec.NotConnectedToTheChannel);
      }
      outbound := outbound + [Spec.PrivMsg(entry.value.prefixedName, message)];
      return None;
    }

    /** `SendRawAsync(rawMessage)`. */
    method SendRaw(raw: string) returns (err: Option<Spec.ClientError>)
      modifies this
      ensures Spec.Outcome(State(), err) == Spec.SendRaw(old(State()), raw)
    {
      if !connected {
        return Some(Spec.ClientNotConnected);
      }
      outbound := outbound + [Spec.Raw(raw)];
      return None;
    }

    /** `ConnectAsync()`. */
    method Connect()
      modifies this
      ensures State() == Spec.Connect(old(State())).state
    {
      if connected {
        return;
      }
      outbound := outbound + [Spec.ConnectCommand(retained)];
      connected := true;
    }

    /** `DisconnectAsync()`. */
    method Disconnect()
      modifies this
      ensures State() == Spec.Disconnect(old(State())).state
    {
      if !connected {
        return;
      }
      outbound := outbound + [Spec.DisconnectCommand];
      connected := false;
      channels := [];
    }

    /** `JoinChannelAsync(channel)`, formatting through a scratch buffer as the source does. */
    method JoinChannel(channel: string) returns (err: Option<Spec.ClientError>)
      modifies this
      ensures Spec.Outcome(State(), err) == Spec.Join(old(State()), channel)
    {
      var scratch := new char[|channel| + 1];
      var formatted := FormatChannelInto(channel, true, scratch);
      if formatted.Failure? {
        return Some(Spec.Format);
      }
      var name := scratch[..formatted.value];
      retained := retained + [name];
      if connected {
        outbound := outbound + [Spec.JoinCommand(name)];
      }
      return None;
    }

    /**
     * `JoinChannelsAsync(channels)`, for every overload; the `IEnumerable`
     * overload is taken as its evident intent, one pass.
     */
    method JoinChannels(names: seq<string>) returns (err: Option<Spec.ClientError>)
      modifies this
      ensures Spec.Outcome(State(), err) == Spec.JoinAll(old(State()), names)
    {
      var i := 0;
      while i < |names|
        invariant 0 <= i <= |names|
        invariant Spec.JoinAll(State(), names[i..]) == Spec.JoinAll(old(State()), names)
      {
        assert names[i..][0] == names[i] && names[i..][1..] == names[i + 1..];
        err := JoinChannel(names[i]);
        if err.Some? {
          return;
        }
        i := i + 1;
      }
      return None;
    }

    /** `LeaveChannelAsync(channel)`. */
    method LeaveChannel(channel: string) returns (err: Option<Spec.ClientError>)
      modifies this
      ensures Spec.Outcome(State(), err) == Spec.Leave(old(State()), channel)
    {
      if |retained| == 0 {
        return None;
      }
      var scratch := new char[|channel| + 1];
      var formatted := FormatChannelInto(channel, true, scratch);
      if formatted.Failure? {
        return Some(Spec.Format);
      }
      var name := scratch[..formatted.value];
      retained := Spec.RemoveFirst(retained, name);
      channels := Spec.RemoveByName(channels, channel);
      if connected {
        outbound := outbound + [Spec.PartCommand(channel)];
      }
      return None;
    }

    /** `LeaveChannelsAsync(channels)`, for every overload, one pass. */
    method LeaveChannels(names: seq<string>) returns (err: Option<Spec.ClientError>)
      modifies this
      ensures Spec.Outcome(State(), err) == Spec.LeaveAll(old(State()), names)
    {
      var i := 0;
      while i < |names|
        invariant 0 <= i <= |names|
        invariant Spec.LeaveAll(State(), names[i..]) == Spec.LeaveAll(old(State()), names)
      {
        assert names[i..][0] == names[i] && names[i..][1..] == names[i + 1..];
        err := LeaveChannel(names[i]);
        if err.Some? {
          return;
        }
        i := i + 1;
      }
      return None;
    }

    /** `LeaveChannelsAsync()`: leaves a snapshot of the retained list, then clears both lists. */
    method LeaveAllChannels() returns (err: Option<Spec.ClientError>)
      modifies this
      ensures Spec.Outcome(State(), err) == Spec.LeaveEverything(old(State()))
    {
      if connected {
        var snapshot := retained;
        err := LeaveChannels(snapshot);
        if err.Some? {
          return;
        }
      }
      channels := [];
      retained := [];
      return None;
    }

    /** `IrcHandler_OnRoomstateReceived`: `Channels.Update(roomstateArgs)`. */
    method OnRoomstate(args: RoomState.RoomstateArgs)
      modifies this
      ensures State() == Spec.OnRoomstate(old(State()), args).state
    {
      channels := Spec.UpdateChannels(channels, args);
    }

    /** `IrcHandler_OnPingReceived`: "PONG :" and the payload, through `SendRawAsync`. */
    method OnPing(payload: string) returns (err: Option<Spec.ClientError>)
      modifies this
      ensures Spec.Outcome(State(), err) == Spec.OnPing(old(State()), payload)
    {
      err := SendRaw(Spec.PongPrefix + payload);
    }
  }

  /**
   * `TwitchClient(username, oAuthToken, options)`: the name is formatted
   * without '#' first, and a badly formed name throws `FormatException`.
   */
  method Create(username: string) returns (r: Result<TwitchClient, Spec.ClientError>)
    ensures r.Failure? <==> FormatChannel(username, false).Failure?
    ensures r.Failure? ==> r.error == Spec.Format
    ensures r.Success? ==> fresh(r.value) && r.value.username == FormatChannel(username, false).value
    ensures r.Success? ==> r.value.State() == Spec.Initial(false)
  {
    var formatted := FormatChannel(username, false);
    if formatted.Failure? {
      return Failure(Spec.Format);
    }
    var client := new TwitchClient.Login(formatted.value);
    r := Success(client);
  }
}
