/**
 * The shape of a YouTube channel id as the sources test it with the
 * regular expression `^UC[0-9A-Za-z_-]{20,}$`
 * (src/components/channel/ChannelsHome.tsx and
 * src/app/api/resolve-channel/route.ts).
 */
module ChannelId {

  /** `[0-9A-Za-z_-]`. */
  predicate IsIdChar(c: char) {
    '0' <= c <= '9' || 'A' <= c <= 'Z' || 'a' <= c <= 'z' || c == '_' || c == '-'
  }

  predicate AllIdChars(s: string) {
    forall k :: 0 <= k < |s| ==> IsIdChar(s[k])
  }

  /** The whole string is `UC` followed by at least 20 id characters. */
  predicate IsChannelId(s: string) {
    |s| >= 22 && s[0] == 'U' && s[1] == 'C' && AllIdChars(s[2..])
  }

  /** A channel id is made of id characters only, `U` and `C` included. */
  lemma {:induction false} ChannelIdChars(s: string)
    requires IsChannelId(s)
    ensures AllIdChars(s)
  {
    forall k | 2 <= k < |s| ensures IsIdChar(s[k]) {
      assert s[k] == s[2..][k - 2];
    }
  }
}
