/**
 * The emoji-only channel moderator of source/addons/emoji_only_channel.py: the message is
 * lower-cased, every `<...>` custom-emoji token (the regular expression `<[^\s]+>`) is
 * removed, and the message is deleted when what is left still holds a letter, a digit or
 * one of the listed punctuation characters.
 */
module EmojiOnlyChannel {
  import opened Wrappers
  import opened Text

  /** Length of the run of non-whitespace characters `t` starts with (`[^\s]*`). */
  function NonSpaceRun(t: string): (n: nat)
    ensures n <= |t|
    ensures forall i :: 0 <= i < n ==> !IsSpace(t[i])
    ensures n < |t| ==> IsSpace(t[n])
  {
    if t == [] || IsSpace(t[0]) then 0 else 1 + NonSpaceRun(t[1..])
  }

  /** Index of the last `'>'` in `t`, the point greedy backtracking stops at. */
  function LastClose(t: string): (k: Option<nat>)
    ensures k.Some? ==> k.value < |t| && t[k.value] == '>'
    ensures k.Some? ==> forall j :: k.value < j < |t| ==> t[j] != '>'
    ensures k.None? ==> forall j :: 0 <= j < |t| ==> t[j] != '>'
  {
    if t == [] then None
    else if t[|t| - 1] == '>' then Some(|t| - 1)
    else LastClose(t[..|t| - 1])
  }

  /** `<[^\s]+>` matches the first `m` characters of `s`. */
  predicate IsMatch(s: string, m: nat)
  {
    3 <= m <= |s| && s[0] == '<' && s[m - 1] == '>'
    && forall i :: 1 <= i < m - 1 ==> !IsSpace(s[i])
  }

  /**
   * Length of the match of `<[^\s]+>` at the start of `s`, 0 when there is none: the
   * greedy `+` takes the whole non-whitespace run and gives back characters until a `>`
   * ends the match, so the match found is the longest one.
   */
  function TokenLength(s: string): (n: nat)
    ensures n == 0 || IsMatch(s, n)
    ensures forall m :: n < m <= |s| ==> !IsMatch(s, m)
  {
    if s == [] || s[0] != '<' then 0
    else
      var run := NonSpaceRun(s[1..]);
      var k := LastClose(s[1..1 + run]);
      assert forall m: nat :: IsMatch(s, m) ==> m - 2 < run && s[1..1 + run][m - 2] == '>' by {
        forall m: nat | IsMatch(s, m) ensures m - 2 < run && s[1..1 + run][m - 2] == '>' {
          MatchWithinRun(s, m);
        }
      }
      if k.Some? && k.value >= 1 then
        assert forall i :: 1 <= i < k.value + 1 ==> !IsSpace(s[i]) by {
          forall i | 1 <= i < k.value + 1 ensures !IsSpace(s[i]) {
            assert s[1..][i - 1] == s[i];
          }
        }
        assert s[k.value + 1] == s[1..1 + run][k.value];
        k.value + 2
      else
        0
  }

  /** A match ends inside the non-whitespace run after its `<`. */
  lemma MatchWithinRun(s: string, m: nat)
    requires IsMatch(s, m)
    ensures m - 2 < NonSpaceRun(s[1..])
    ensures s[1..1 + NonSpaceRun(s[1..])][m - 2] == '>'
  {
    var run := NonSpaceRun(s[1..]);
    assert !IsSpace(s[m - 1]);
  }

  /** `re.sub(r"<[^\s]+>", "", s)`: matches are removed left to right, without overlap. */
  function RemoveTokens(s: string): (r: string)
    ensures |r| <= |s|
    decreases |s|
  {
    if s == [] then []
    else
      var n := TokenLength(s);
      if n > 0 then RemoveTokens(s[n..]) else [s[0]] + RemoveTokens(s[1..])
  }

  /** The character class `[a-z0-9\.\-=\*\&\^%\$\#@!`\~\?]`. */
  predicate InClass(c: char)
  {
    ('a' <= c <= 'z') || ('0' <= c <= '9')
    || c in {'.', '-', '=', '*', '&', '^', '%', '$', '#', '@', '!', '`', '~', '?'}
  }

  /** `re.search` with the character class: some character of `t` is in it. */
  function HasClassChar(t: string): (found: bool)
    ensures found <==> exists i :: 0 <= i < |t| && InClass(t[i])
  {
    if t == [] then false
    else InClass(t[0]) || (assert forall i :: 1 <= i < |t| ==> t[i] == t[1..][i - 1]; HasClassChar(t[1..]))
  }

  /** What is left of a message once it is lower-cased and its emoji tokens are removed. */
  function Residue(content: string): string
  {
    RemoveTokens(Lower(content))
  }

  /** `manage_emojis_channel`: whether the message is deleted. */
  function ShouldDelete(content: string): (delete: bool)
    ensures delete <==> exists i :: 0 <= i < |Residue(content)| && InClass(Residue(content)[i])
  {
    HasClassChar(Residue(content))
  }

  /** Without a `<` nothing is removed. */
  lemma {:induction false} NoTokenUnchanged(s: string)
    requires '<' !in s
    ensures RemoveTokens(s) == s
    decreases |s|
  {
    if s != [] {
      assert s[0] != '<';
      assert '<' !in s[1..] by {
        forall i | 0 <= i < |s[1..]| ensures s[1..][i] != '<' {
          assert s[1..][i] == s[i + 1];
        }
      }
      NoTokenUnchanged(s[1..]);
    }
  }

  /** A maximal run of non-whitespace characters that is one `<...>` token, or several glued together. */
  predicate IsGroup(s: string, n: nat)
  {
    IsMatch(s, n) && (n == |s| || IsSpace(s[n]))
  }

  /** A message made only of emoji tokens and whitespace. */
  ghost predicate EmojiOnly(s: string)
    decreases |s|
  {
    s == []
    || (IsSpace(s[0]) && EmojiOnly(s[1..]))
    || (exists n :: 3 <= n <= |s| && IsGroup(s, n) && EmojiOnly(s[n..]))
  }

  /** A whole group is removed in one match. */
  lemma GroupRemoved(s: string, n: nat)
    requires IsGroup(s, n)
    ensures TokenLength(s) == n
  {
    var t := TokenLength(s);
    assert t <= n;
  }

  /** Removing the tokens of an emoji-only message leaves only whitespace. */
  lemma {:induction false} EmojiOnlyResidue(s: string)
    requires EmojiOnly(s)
    ensures forall i :: 0 <= i < |RemoveTokens(s)| ==> IsSpace(RemoveTokens(s)[i])
    decreases |s|
  {
    if s == [] {
    } else if IsSpace(s[0]) && EmojiOnly(s[1..]) {
      EmojiOnlyResidue(s[1..]);
      assert TokenLength(s) == 0;
    } else {
      var n :| 3 <= n <= |s| && IsGroup(s, n) && EmojiOnly(s[n..]);
      GroupRemoved(s, n);
      EmojiOnlyResidue(s[n..]);
    }
  }

  /** Lower-casing keeps a message emoji-only: it changes no whitespace, `<` or `>`. */
  lemma {:induction false} LowerEmojiOnly(s: string)
    requires EmojiOnly(s)
    ensures EmojiOnly(Lower(s))
    decreases |s|
  {
    if s == [] {
    } else if IsSpace(s[0]) && EmojiOnly(s[1..]) {
      LowerEmojiOnly(s[1..]);
      LowerSuffix(s, 1);
      assert IsSpace(Lower(s)[0]);
    } else {
      var n :| 3 <= n <= |s| && IsGroup(s, n) && EmojiOnly(s[n..]);
      LowerEmojiOnly(s[n..]);
      LowerSuffix(s, n);
      LowerGroup(s, n);
    }
  }

  lemma LowerSuffix(s: string, n: nat)
    requires n <= |s|
    ensures Lower(s)[n..] == Lower(s[n..])
  {
  }

  /** Lower-casing keeps a group a group. */
  lemma LowerGroup(s: string, n: nat)
    requires IsGroup(s, n)
    ensures IsGroup(Lower(s), n)
  {
    var l := Lower(s);
    forall i | 1 <= i < n - 1 ensures !IsSpace(l[i]) {
      assert l[i] == LowerChar(s[i]);
    }
    assert l[0] == LowerChar(s[0]) && l[n - 1] == LowerChar(s[n - 1]);
    assert n < |l| ==> l[n] == LowerChar(s[n]);
  }

  /** A message of custom emojis and whitespace is never deleted. */
  lemma EmojiOnlyKept(content: string)
    requires EmojiOnly(content)
    ensures !ShouldDelete(content)
  {
    LowerEmojiOnly(content);
    EmojiOnlyResidue(Lower(content));
  }

  /** A message without tokens that holds a letter or a digit is deleted, whatever its case. */
  lemma LetterDeleted(content: string, i: nat)
    requires '<' !in content
    requires i < |content| && (('a' <= content[i] <= 'z') || ('A' <= content[i] <= 'Z') || ('0' <= content[i] <= '9'))
    ensures ShouldDelete(content)
  {
    var l := Lower(content);
    assert '<' !in l by {
      forall j | 0 <= j < |l| ensures l[j] != '<' {
        assert l[j] == LowerChar(content[j]);
      }
    }
    NoTokenUnchanged(l);
    assert InClass(Residue(content)[i]);
  }

  /** The decision does not depend on letter case. */
  lemma CaseInsensitive(content: string)
    ensures ShouldDelete(Lower(content)) == ShouldDelete(content)
  {
    assert Lower(Lower(content)) == Lower(content);
  }
}

/**
 * The older variant in source/extra/emoji_only_channel.py: the same moderation, applied
 * only to messages in a configured channel.
 */
module GatedEmojiChannel {
  import opened ValidChannels
  import EmojiOnlyChannel

  /** `manage_emojis_channel(message, channels)`: whether the message is deleted. */
  method ManageEmojisChannel(place: Place, content: string, channels: seq<string>, search: (string, string) -> bool)
    returns (delete: bool)
    ensures !ValidChannel(place, channels, search) ==> !delete
    ensures ValidChannel(place, channels, search) ==> delete == EmojiOnlyChannel.ShouldDelete(content)
  {
    var valid := IsValidChannel(place, channels, search);
    if !valid {
      return false;
    }
    delete := EmojiOnlyChannel.ShouldDelete(content);
  }
}
