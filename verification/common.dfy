/** Vocabulary shared by every view: optional values, the responses a view sends back,
    and Python's `str` of a non-negative integer. */
module Common {

  datatype Option<+T> = None | Some(value: T)

  /** The `room_info` object returned by a successful room registration. */
  datatype RoomInfo = RoomInfo(
    id: nat,
    roomName: string,
    address: string,
    price: string,
    bedroom: string,
    bathroom: string,
    bed: string,
    hostName: string,
    category: string,
    roomType: string,
    facilities: seq<string>,
    images: seq<string>)

  /** What a JSON response carries besides its `message`. */
  datatype Data =
    | NoData
    | TokenData(token: string)
    | HostData(hostName: string)
    | RoomData(info: RoomInfo)

  /** A `JsonResponse`, or an exception that escaped the view; Django answers the latter
      with its generic status 500 page. */
  datatype Response =
    | Json(status: int, message: string, data: Data)
    | Uncaught(exception: string)
  {
    function Status(): int {
      if Json? then status else 500
    }
  }

  function Reply(status: int, message: string): Response {
    Json(status, message, NoData)
  }

  const KeyErrorReply: Response := Reply(400, "KEY_ERROR")

  predicate IsDigitChar(c: char) {
    '0' <= c <= '9'
  }

  function DigitChar(d: nat): (c: char)
    requires d < 10
    ensures IsDigitChar(c)
  {
    (d + '0' as int) as char
  }

  /** Python's `str(n)` for a non-negative integer `n`: its decimal digits, no sign, no padding. */
  function DecimalString(n: nat): (s: string)
    ensures 0 < |s|
    ensures forall i | 0 <= i < |s| :: IsDigitChar(s[i])
    ensures n < 10 <==> |s| == 1
  {
    if n < 10 then [DigitChar(n)] else DecimalString(n / 10) + [DigitChar(n % 10)]
  }

  /** Different numbers print differently, so the digits of an id identify it. */
  lemma {:induction false} DecimalStringInjective(a: nat, b: nat)
    requires DecimalString(a) == DecimalString(b)
    ensures a == b
  {
    if a >= 10 && b >= 10 {
      var sa, sb := DecimalString(a), DecimalString(b);
      assert sa[|sa| - 1] == DigitChar(a % 10) && sb[|sb| - 1] == DigitChar(b % 10);
      assert a % 10 == b % 10;
      assert sa[..|sa| - 1] == DecimalString(a / 10);
      assert sb[..|sb| - 1] == DecimalString(b / 10);
      DecimalStringInjective(a / 10, b / 10);
    }
  }

  /** First position of `c` in `s`, or `|s|` when there is none. */
  function IndexOf(s: string, c: char): (r: nat)
    ensures r <= |s|
    ensures r < |s| ==> s[r] == c
    ensures forall i | 0 <= i < r :: s[i] != c
  {
    if |s| == 0 then 0
    else if s[0] == c then 0
    else 1 + IndexOf(s[1..], c)
  }
}
