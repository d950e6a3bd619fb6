/** Text forms of IPv4 and IPv6 addresses: what the parsers accept and what the
    printer writes.

    Both parsers are state machines that take one character at a time. */
module Inet {
  import opened Wrappers
  import opened CStrings
  import opened Snprintf

  type byte = x: int | 0 <= x < 256
  type word = x: int | 0 <= x < 0x1_0000

  // ----- inet_pton4 -----

  /** Octets that are complete, the one being read, and whether it has a digit. */
  datatype State4 = State4(done: seq<byte>, cur: byte, saw: bool)

  /** One character of a dotted quad. */
  function Step4(s: State4, c: char): Option<State4> {
    if IsDigit(c) then
      var new_ := s.cur * 10 + (c as int - '0' as int);
      if new_ > 255 then None
      else if !s.saw && |s.done| + 1 > 4 then None
      else Some(State4(s.done, new_, true))
    else if c == '.' && s.saw then
      if |s.done| + 1 == 4 then None
      else Some(State4(s.done + [s.cur], 0, false))
    else None
  }

  function Run4(s: State4, src: string): Option<State4>
    decreases |src|
  {
    if src == "" then Some(s)
    else match Step4(s, src[0])
      case None => None
      case Some(t) => Run4(t, src[1..])
  }

  const START4: State4 := State4([], 0, false)

  /** The four octets, if the text is a dotted quad. */
  function Pton4(src: string): (r: Option<seq<byte>>)
    ensures r.Some? ==> |r.value| == 4
  {
    match Run4(START4, src)
    case None => None
    case Some(s) =>
      // the octet being read counts once it has a digit
      if |s.done| + (if s.saw then 1 else 0) != 4 then None
      else if s.saw then Some(s.done + [s.cur]) else Some(s.done)
  }

  // ----- inet_pton6 -----

  predicate IsXDigit(c: char) {
    '0' <= c <= '9' || 'a' <= c <= 'f'
  }

  function XValue(c: char): (v: nat)
    requires IsXDigit(c)
    ensures v < 16
  {
    if c <= '9' then c as int - '0' as int else c as int - 'a' as int + 10
  }

  /** Bytes stored, position of the double colon, and the group being read. */
  datatype State6 = State6(bytes: seq<byte>, colon: Option<nat>, saw: bool, val: word)

  function Hi(w: word): byte { w / 256 }

  function Lo(w: word): byte { w % 256 }

  function WordOf(hi: byte, lo: byte): word {
    var v: int := hi * 256;
    v + lo
  }

  /** The double colon stands somewhere among the stored bytes. */
  predicate Sound(s: State6) {
    |s.bytes| <= 16 && (s.colon.Some? ==> s.colon.value <= |s.bytes|)
  }

  /** Stores a finished group. */
  function Push(s: State6): (r: Option<State6>)
    requires Sound(s)
    ensures r.Some? ==> Sound(r.value)
  {
    if |s.bytes| + 2 > 16 then None
    else Some(State6(s.bytes + [Hi(s.val), Lo(s.val)], s.colon, false, 0))
  }

  /** The loop over the text; `tok` is the text from the start of the current
      group. Characters that mean nothing are stepped over. */
  function Run6(s: State6, tok: string, src: string): (r: Option<State6>)
    requires Sound(s)
    ensures r.Some? ==> Sound(r.value)
    decreases |src|
  {
    if src == "" then Some(s)
    else
      var ch, rest := ToLower(src[0]), src[1..];
      if IsXDigit(ch) then
        var val := s.val * 16 + XValue(ch);
        if val > 0xffff then None else Run6(s.(val := val, saw := true), tok, rest)
      else if ch == ':' then
        if !s.saw then
          if s.colon.Some? then None else Run6(s.(colon := Some(|s.bytes|)), rest, rest)
        else if rest == "" then None
        else match Push(s)
          case None => None
          case Some(t) => Run6(t, rest, rest)
      else if ch == '.' && rest != "" then
        if |s.bytes| + 4 > 16 then None
        else match Pton4(tok)
          case None => None
          case Some(quad) => Some(s.(bytes := s.bytes + quad, saw := false))
      else Run6(s, tok, rest)
  }

  function Zeros(n: nat): (r: seq<byte>)
    ensures |r| == n && forall i :: 0 <= i < n ==> r[i] == 0
  {
    seq(n, _ => 0)
  }

  /** The last group is stored, and the double colon spread out. */
  function Finish6(s: State6): (r: Option<seq<byte>>)
    requires Sound(s)
    ensures r.Some? ==> |r.value| == 16
  {
    match if s.saw then Push(s) else Some(s)
    case None => None
    case Some(t) =>
      match t.colon
      case None => if |t.bytes| == 16 then Some(t.bytes) else None
      case Some(c) =>
        if |t.bytes| == 16 then None
        else Some(t.bytes[..c] + Zeros(16 - |t.bytes|) + t.bytes[c..])
  }

  function After6(r: Option<State6>): Option<seq<byte>>
    requires r.Some? ==> Sound(r.value)
  {
    match r
    case None => None
    case Some(t) => Finish6(t)
  }

  const START6: State6 := State6([], None, false, 0)

  function Pton6(src: string): (r: Option<seq<byte>>)
    ensures r.Some? ==> |r.value| == 16
  {
    if src != "" && src[0] == ':' && (|src| == 1 || src[1] != ':') then None
    else
      var s := if src != "" && src[0] == ':' then src[1..] else src;
      After6(Run6(START6, s, s))
  }

  // ----- inet_ntop6 -----

  /** The 16-bit groups of an address. */
  function Words(a: seq<byte>): (w: seq<word>)
    requires |a| == 16
    ensures |w| == 8
  {
    seq(8, i requires 0 <= i < 8 => WordOf(a[2 * i], a[2 * i + 1]))
  }

  predicate AllZero(w: seq<word>, b: nat, n: nat) {
    b + n <= |w| && forall k :: b <= k < b + n ==> w[k] == 0
  }

  /** A run of zero groups, or none. */
  datatype Run = NoRun | Run(base: nat, len: nat)

  /** The longest run within the first `n` groups, the first one of them. */
  ghost predicate BestIn(w: seq<word>, n: nat, r: Run) {
    n <= |w| &&
    match r
    case NoRun => forall k :: 0 <= k < n ==> w[k] != 0
    case Run(base, len) =>
      && len >= 1 && base + len <= n && AllZero(w, base, len)
      && forall b: nat, l: nat :: l >= 1 && b + l <= n && AllZero(w, b, l) ==> l < len || (l == len && b >= base)
  }

  /** The run that is compressed: the best one, if it has two groups at least. */
  ghost predicate Compressed(w: seq<word>, r: Run) {
    match r
    case NoRun => forall b: nat :: b + 2 <= |w| ==> !AllZero(w, b, 2)
    case Run(base, len) => len >= 2 && BestIn(w, |w|, r)
  }

  function Dotted(a: byte, b: byte, c: byte, d: byte): string {
    Digits(a, Dec) + "." + Digits(b, Dec) + "." + Digits(c, Dec) + "." + Digits(d, Dec)
  }

  predicate InRun(r: Run, i: nat) {
    r.Run? && r.base <= i < r.base + r.len
  }

  /** The address carries an IPv4 address in its last four bytes. */
  predicate Embeds(w: seq<word>, r: Run)
    requires |w| == 8
  {
    r.Run? && r.base == 0 && (r.len == 6 || (r.len == 5 && w[5] == 0xffff))
  }

  /** The text from group `i` on. */
  function Text6(w: seq<word>, r: Run, i: nat): string
    requires |w| == 8
    decreases 8 - i
  {
    if i >= 8 then
      if r.Run? && r.base + r.len == 8 then ":" else ""
    else if InRun(r, i) then
      (if i == r.base then ":" else "") + Text6(w, r, i + 1)
    else
      (if i != 0 then ":" else "")
      + if i == 6 && Embeds(w, r) then Dotted(Hi(w[6]), Lo(w[6]), Hi(w[7]), Lo(w[7]))
        else Digits(w[i], Hex) + Text6(w, r, i + 1)
  }
}
