/**
 * The channel filter shared by source/utils/valid_channels.py and
 * `MessageHandler._is_valid_channel` in source/handlers/message_handler.py: a message
 * passes when some configured pattern is found in its `"guild:channel"` key. Patterns
 * are regular expressions from the configuration; `re.search` is an uninterpreted
 * predicate here.
 */
module ValidChannels {
  import opened Wrappers
  import opened Text

  predicate IsDigits(s: string)
  {
    forall i :: 0 <= i < |s| ==> '0' <= s[i] <= '9'
  }

  /** The number a string of decimal digits denotes, most significant digit first. */
  function DigitsValue(s: string): nat
    requires IsDigits(s)
  {
    if s == [] then 0
    else DigitsValue(s[..|s| - 1]) * 10 + (s[|s| - 1] - '0') as int
  }

  /** Decimal digits of a Discord id, as an f-string prints it: no leading zero, denoting the id. */
  function NatToString(n: nat): (s: string)
    ensures |s| >= 1 && IsDigits(s)
    ensures DigitsValue(s) == n
    ensures s[0] != '0' || s == "0"
  {
    var digit := ['0' + (n % 10) as char];
    if n < 10 then
      assert DigitsValue(digit) == DigitsValue([]) * 10 + n % 10;
      digit
    else
      var front := NatToString(n / 10);
      var s := front + digit;
      assert s[..|s| - 1] == front;
      assert front != "0" by {
        assert DigitsValue("0") == 0;
      }
      s
  }

  /** Different ids print differently. */
  lemma NatToStringInjective(a: nat, b: nat)
    requires NatToString(a) == NatToString(b)
    ensures a == b
  {
    assert DigitsValue(NatToString(a)) == a;
  }

  /** The `"guild:channel"` key the patterns are matched against. */
  function ChannelKey(guild: nat, channel: nat): string
  {
    NatToString(guild) + ":" + NatToString(channel)
  }

  /** The key splits back into the two ids: the colon appears only between them. */
  lemma ChannelKeySplits(guild: nat, channel: nat)
    ensures Split(ChannelKey(guild, channel), ":") == [NatToString(guild), NatToString(channel)]
  {
    var parts := [NatToString(guild), NatToString(channel)];
    assert Join(parts, ":") == ChannelKey(guild, channel);
    assert ':' !in parts[0] && ':' !in parts[1];
    JoinSplit(parts, ":");
  }

  /** The parts of a message the filter looks at; a missing guild or channel is `None`. */
  datatype Place = Place(guild: Option<nat>, channel: Option<nat>)

  /** The filter's answer, as a specification. */
  predicate ValidChannel(place: Place, channels: seq<string>, search: (string, string) -> bool)
  {
    place.guild.Some? && place.channel.Some?
    && exists i :: 0 <= i < |channels| && search(channels[i], ChannelKey(place.guild.value, place.channel.value))
  }

  /** The filter's loop: false without a guild or channel, else true at the first pattern found. */
  method IsValidChannel(place: Place, channels: seq<string>, search: (string, string) -> bool)
    returns (valid: bool)
    ensures valid == ValidChannel(place, channels, search)
  {
    if place.guild.None? || place.channel.None? {
      return false;
    }
    var finalId := ChannelKey(place.guild.value, place.channel.value);
    var i := 0;
    while i < |channels|
      invariant 0 <= i <= |channels|
      invariant forall j :: 0 <= j < i ==> !search(channels[j], finalId)
    {
      if search(channels[i], finalId) {
        return true;
      }
      i := i + 1;
    }
    return false;
  }
}
