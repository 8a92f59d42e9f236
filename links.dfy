/**
 * The two strings the user service builds: the avatar retrieval link
 * "/users/{id}" and the friend invitation text.
 */
module Links {

  /** The character of a decimal digit. */
  function DigitChar(d: nat): (c: char)
    requires d < 10
    ensures '0' <= c <= '9'
  {
    (('0' as int) + d) as char
  }

  /** The value of a decimal digit character. */
  function DigitValue(c: char): nat {
    if '0' <= c <= '9' then (c as int) - ('0' as int) else 0
  }

  predicate IsDigits(s: string) {
    forall i :: 0 <= i < |s| ==> '0' <= s[i] <= '9'
  }

  /** The decimal form of `n`: digits only, no leading zero. */
  function NatToString(n: nat): (s: string)
    ensures |s| >= 1 && IsDigits(s)
    ensures s[0] == '0' <==> n == 0
    ensures |s| > 1 ==> s[0] != '0'
  {
    if n < 10 then [DigitChar(n)] else NatToString(n / 10) + [DigitChar(n % 10)]
  }

  /** The number a string of decimal digits denotes. */
  function ParseNat(s: string): nat {
    if |s| == 0 then 0 else ParseNat(s[..|s| - 1]) * 10 + DigitValue(s[|s| - 1])
  }

  lemma {:induction false} ParseNatToString(n: nat)
    ensures ParseNat(NatToString(n)) == n
  {
    if n >= 10 {
      var s := NatToString(n);
      assert s[..|s| - 1] == NatToString(n / 10);
      ParseNatToString(n / 10);
    }
  }

  /** Java's decimal rendering of an int, as string concatenation produces it. */
  function IntToString(i: int): (s: string)
    ensures |s| >= 1
    ensures i < 0 <==> s[0] == '-'
    ensures var digits := if i < 0 then s[1..] else s;
            && |digits| >= 1 && IsDigits(digits)
            && (digits[0] == '0' <==> i == 0)
            && (|digits| > 1 ==> digits[0] != '0')
  {
    if i < 0 then "-" + NatToString(-i) else NatToString(i)
  }

  function ParseInt(s: string): int {
    if |s| > 0 && s[0] == '-' then 0 - ParseNat(s[1..]) else ParseNat(s)
  }

  lemma IntToStringRoundTrip(i: int)
    ensures ParseInt(IntToString(i)) == i
  {
    if i < 0 {
      ParseNatToString(-i);
      assert IntToString(i)[1..] == NatToString(-i);
    } else {
      ParseNatToString(i);
    }
  }

  /** The path under which the avatars are served. */
  const UsersPath := "/users"

  /** The retrieval link stored as a user's avatar reference. */
  function ImageLink(id: int): (link: string)
    ensures |link| > 7 && link[..7] == "/users/"
    ensures link[7..] == IntToString(id)
  {
    UsersPath + "/" + IntToString(id)
  }

  /** Different users never get the same avatar link. */
  lemma ImageLinkInjective(a: int, b: int)
    ensures ImageLink(a) == ImageLink(b) <==> a == b
  {
    if ImageLink(a) == ImageLink(b) {
      IntToStringRoundTrip(a);
      IntToStringRoundTrip(b);
      assert IntToString(a) == ImageLink(a)[7..];
    }
  }

  const InvitationPrefix := "Пользователь :"
  const InvitationSuffix := "приглашает вас в друзья."

  /** The message goFriend sends to the invited user; the name is glued to the suffix. */
  function InvitationText(nameUser: string): (text: string)
    ensures |text| == |InvitationPrefix| + |nameUser| + |InvitationSuffix|
  {
    InvitationPrefix + nameUser + InvitationSuffix
  }

  /** The invitation carries the inviter's name verbatim between the fixed parts. */
  lemma InvitationNamesInviter(nameUser: string)
    ensures var text := InvitationText(nameUser);
            && text[..|InvitationPrefix|] == InvitationPrefix
            && text[|InvitationPrefix|..|InvitationPrefix| + |nameUser|] == nameUser
            && text[|InvitationPrefix| + |nameUser|..] == InvitationSuffix
  {
  }

  /** Different inviters send different texts. */
  lemma InvitationInjective(a: string, b: string)
    ensures InvitationText(a) == InvitationText(b) <==> a == b
  {
    if InvitationText(a) == InvitationText(b) {
      InvitationNamesInviter(a);
      InvitationNamesInviter(b);
    }
  }
}
