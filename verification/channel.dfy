/**
 * Twitch/Models/Channel.cs: the room state of one joined channel. The name
 * and id are fixed at construction; `Update` overwrites every flag with the
 * values of a ROOMSTATE message.
 */
module RoomState {
  import opened Ints

  /** The fields of a ROOMSTATE message that `Channel` reads. */
  datatype RoomstateArgs = RoomstateArgs(
    channel: string,
    channelId: Int32,
    emoteOnly: bool,
    followerOnly: Int32,
    r9k: bool,
    rituals: bool,
    slowMode: Int32,
    subOnly: bool)

  /** The six mutable flags of a channel, as one value. */
  datatype Flags = Flags(
    emoteOnly: bool,
    followerOnly: Int32,
    r9k: bool,
    rituals: bool,
    slowMode: Int32,
    subOnly: bool)

  /** The flags a message carries. */
  function FlagsOf(args: RoomstateArgs): (f: Flags)
    ensures f.emoteOnly == args.emoteOnly && f.followerOnly == args.followerOnly
    ensures f.r9k == args.r9k && f.rituals == args.rituals
    ensures f.slowMode == args.slowMode && f.subOnly == args.subOnly
  {
    Flags(args.emoteOnly, args.followerOnly, args.r9k, args.rituals, args.slowMode, args.subOnly)
  }

  class Channel {
    /** `Name` and `Id` have no setter. */
    const name: string
    const id: Int32

    var emoteOnly: bool
    var followerOnly: Int32
    var r9k: bool
    var rituals: bool
    var slowMode: Int32
    var subOnly: bool

    function CurrentFlags(): Flags
      reads this
    {
      Flags(emoteOnly, followerOnly, r9k, rituals, slowMode, subOnly)
    }

    /** `Channel(RoomstateArgs)`: name and id from the message, then `Update`. */
    constructor (args: RoomstateArgs)
      ensures name == args.channel && id == args.channelId
      ensures CurrentFlags() == FlagsOf(args)
    {
      name := args.channel;
      id := args.channelId;
      new;
      Update(args);
    }

    /** Overwrites all six flags, whatever they were; name and id stay. */
    method Update(args: RoomstateArgs)
      modifies this
      ensures CurrentFlags() == FlagsOf(args)
    {
      emoteOnly := args.emoteOnly;
      followerOnly := args.followerOnly;
      r9k := args.r9k;
      rituals := args.rituals;
      slowMode := args.slowMode;
      subOnly := args.subOnly;
    }

    /** Two updates in a row: the second wins and the first leaves no trace. */
    method UpdateTwice(first: RoomstateArgs, second: RoomstateArgs)
      modifies this
      ensures CurrentFlags() == FlagsOf(second)
    {
      Update(first);
      Update(second);
    }
  }
}
