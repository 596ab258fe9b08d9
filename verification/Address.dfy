/**
  Sender addresses: the printer of the mail client and the parser of the digest
  statistics, which sees what the address sanitiser made of the printed form.
 */
module Address {
  import opened Text
  import opened Header
  import opened ControlChars
  import opened Entities

  datatype MailAddress = MailAddress(personalName: string, mailbox: string, host: string)

  /** `formatAddress`; a missing address prints as nothing. */
  function FormatAddress(a: Option<MailAddress>): string {
    match a
    case None => ""
    case Some(addr) =>
      if addr.personalName != ""
      then SanitizedHeader(addr.personalName) + (" <" + (addr.mailbox + "@" + addr.host) + ">")
      else addr.mailbox + "@" + addr.host
  }

  /** `formatAddressList`: the addresses, separated by commas. */
  function FormatAddressList(addrs: seq<Option<MailAddress>>): string {
    if addrs == [] then ""
    else if |addrs| == 1 then FormatAddress(addrs[0])
    else FormatAddress(addrs[0]) + (", " + FormatAddressList(addrs[1..]))
  }

  /** `extractAddress`. */
  function ExtractAddress(from: string): string {
    var s := Trim(from);
    var open := LastIndexOf(s, "<");
    var close := LastIndexOf(s, ">");
    var end := if close < 0 then |s| else close;
    if s != "" && open >= 0 && end > open then Trim(s[open + 1..end]) else s
  }

  /** `parseSender` with any lower-casing of the domain: the address and its domain, or two empty strings. */
  function ParseSenderWith(from: string, lower: string -> string): (string, string) {
    var addr := ExtractAddress(from);
    var idx := LastIndexOf(addr, "@");
    if addr != "" && 0 < idx < |addr| - 1 then (addr, lower(addr[idx + 1..])) else ("", "")
  }

  function ParseSender(from: string): (string, string) {
    ParseSenderWith(from, ToLower)
  }

  /** An address that survives printing: both parts there, no brackets, no outer white space. */
  predicate Printable(mailbox: string, host: string) {
    && mailbox != "" && host != ""
    && '<' !in mailbox && '>' !in mailbox && '<' !in host && '>' !in host && '@' !in host
    && !IsSpace(mailbox[0]) && !IsSpace(host[|host| - 1])
  }

  lemma {:induction false} LastMark(before: string, mark: char, after: string)
    requires mark !in after
    ensures var s := before + [mark] + after; LastIndexOf(s, [mark]) == |before| && s[|before| + 1..] == after
  {
    hide LastIndexOf, At;
    var s := before + [mark] + after;
    assert s[|before| + 1..] == after && s[|before|] == mark;
    LastChar(s, mark, |before|);
  }

  lemma {:induction false} SplitAtHost(mailbox: string, host: string)
    requires Printable(mailbox, host)
    ensures LastIndexOf(mailbox + "@" + host, "@") == |mailbox|
    ensures Trimmed(mailbox + "@" + host)
  {
    hide LastIndexOf, IsSpace;
    var addr := mailbox + "@" + host;
    LastMark(mailbox, '@', host);
    assert addr[0] == mailbox[0] && addr[|addr| - 1] == host[|host| - 1];
  }

  /** The last brackets of a text are those around `addr` if none follow. */
  lemma {:induction false} BracketPositions(p: string, addr: string, tail: string)
    requires '<' !in addr && '>' !in addr && '<' !in tail && '>' !in tail
    ensures LastIndexOf(p + ("<" + addr + ">" + tail), "<") == |p|
    ensures LastIndexOf(p + ("<" + addr + ">" + tail), ">") == |p| + 1 + |addr|
  {
    hide LastIndexOf;
    var rest := addr + ">" + tail;
    NotIn('<', addr, tail);
    OpenFirst(p, addr, tail);
    LastMark(p, '<', rest);
    LastMark(p + "<" + addr, '>', tail);
  }

  lemma {:induction false} NotIn(c: char, addr: string, tail: string)
    requires c !in addr && c !in tail && c != '>'
    ensures c !in addr + ">" + tail
  {
  }

  lemma {:induction false} OpenFirst(p: string, addr: string, tail: string)
    ensures p + ("<" + addr + ">" + tail) == p + "<" + (addr + ">" + tail)
    ensures p + ("<" + addr + ">" + tail) == (p + "<" + addr) + ">" + tail
  {
    Associate("<", addr + ">", tail);
    Associate("<", addr, ">");
    Associate(p, "<", addr + ">" + tail);
    Associate(p, "<" + addr + ">", tail);
    Associate(p, "<" + addr, ">");
    Associate(p, "<", addr);
  }

  lemma {:induction false} Associate(a: string, b: string, c: string)
    ensures a + b + c == a + (b + c)
  {
  }

  /** What may follow a bracketed address without disturbing it. */
  predicate Unbracketed(tail: string) {
    '<' !in tail && '>' !in tail && (tail != "" ==> !IsSpace(tail[|tail| - 1]))
  }

  /** Anything at all may stand before the last bracketed address, brackets included. */
  lemma {:induction false} ParseBracketed(p: string, mailbox: string, host: string, tail: string,
                                          lower: string -> string)
    requires Printable(mailbox, host) && Unbracketed(tail)
    ensures ParseSenderWith(p + ("<" + (mailbox + "@" + host) + ">" + tail), lower)
         == (mailbox + "@" + host, lower(host))
  {
    hide LastIndexOf, Trim;
    var addr := mailbox + "@" + host;
    var b := "<" + addr + ">" + tail;
    SplitAtHost(mailbox, host);
    assert Trimmed(b) by { BracketsTrimmed(addr, tail); }
    var p' := TrimInFront(p, b);
    BracketPositions(p', addr, tail);
    var s := p' + b;
    assert s[|p'| + 1..|p'| + 1 + |addr|] == addr;
    TrimFixed(addr);
    assert addr[|mailbox| + 1..] == host;
  }

  lemma {:induction false} BracketsTrimmed(addr: string, tail: string)
    requires Unbracketed(tail)
    ensures Trimmed("<" + addr + ">" + tail)
  {
    var b := "<" + addr + ">" + tail;
    assert b[0] == '<' && b[|b| - 1] == (if tail == "" then '>' else tail[|tail| - 1]);
  }

  lemma {:induction false} ParseBare(mailbox: string, host: string, lower: string -> string)
    requires Printable(mailbox, host)
    ensures ParseSenderWith(mailbox + "@" + host, lower) == (mailbox + "@" + host, lower(host))
  {
    hide LastIndexOf, Trim, At;
    var addr := mailbox + "@" + host;
    SplitAtHost(mailbox, host);
    TrimFixed(addr);
    AtChar(addr, '<');
    assert LastIndexOf(addr, "<") < 0;
    assert addr[|mailbox| + 1..] == host;
  }

  /** Parsing undoes printing, whatever the display name. */
  lemma {:induction false} ParseFormatted(a: MailAddress, lower: string -> string)
    requires Printable(a.mailbox, a.host)
    ensures ParseSenderWith(FormatAddress(Some(a)), lower) == (a.mailbox + "@" + a.host, lower(a.host))
  {
    hide ParseSenderWith, SanitizedHeader;
    if a.personalName != "" {
      var name := SanitizedHeader(a.personalName);
      var b := "<" + (a.mailbox + "@" + a.host) + ">";
      ParseBracketed(name + " ", a.mailbox, a.host, "", lower);
      assert name + (" <" + (a.mailbox + "@" + a.host) + ">") == (name + " ") + (b + "");
    } else {
      ParseBare(a.mailbox, a.host, lower);
    }
  }

  // ---------------------------------------------------------------------------
  // Through the address sanitiser
  // ---------------------------------------------------------------------------

  lemma {:induction false} IndexOfOver(a: string, b: string)
    requires ';' !in b
    ensures IndexOf(a + b, ";") == IndexOf(a, ";")
  {
    hide IndexOf, At;
    AtChar(a, ';');
    AtChar(a + b, ';');
    var i := IndexOf(a, ";");
    assert forall k :: 0 <= k < |a| ==> (a + b)[k] == a[k];
    assert forall k :: |a| <= k < |a + b| ==> (a + b)[k] == b[k - |a|];
  }

  /** Decoding entities never reaches into a text without '&' and ';'. */
  lemma {:induction false} DecodedInFront(p: string, body: string)
    requires '&' !in body && ';' !in body
    ensures Decoded(p + body) == Decoded(p) + body
    decreases |p|
  {
    hide UnitText, UnitLength, Decoded;
    if p == "" {
      assert p + body == body;
      DecodedPlain(body);
      DecodedPlain("");
    } else {
      UnitInFront(p, body);
      DecodedUnit(p);
      DecodedUnit(p + body);
      DecodedInFront(p[UnitLength(p)..], body);
    }
  }

  lemma {:induction false} DecodedUnit(s: string)
    requires s != ""
    ensures Decoded(s) == UnitText(s) + Decoded(s[UnitLength(s)..])
  {
    hide UnitText, UnitLength;
  }

  lemma {:induction false} UnitInFront(p: string, body: string)
    requires p != "" && ';' !in body
    ensures UnitLength(p + body) == UnitLength(p) && UnitText(p + body) == UnitText(p)
    ensures (p + body)[UnitLength(p)..] == p[UnitLength(p)..] + body
  {
    hide EntityText, IndexOf;
    assert (p + body)[1..] == p[1..] + body;
    IndexOfOver(p[1..], body);
    var n := UnitLength(p);
    assert (p + body)[..n] == p[..n];
  }

  /** Characters the address sanitiser leaves alone. */
  predicate Plain(s: string) {
    '&' !in s && ';' !in s && forall c :: c in s ==> !IsControl(c as int)
  }

  lemma {:induction false} SanitizedInFront(p: string, body: string) returns (p': string)
    requires Plain(body) && Trimmed(body) && body != ""
    ensures SanitizedAddressField(p + body) == p' + body
  {
    hide Decoded, WithoutControls, Trim;
    WithoutControlsConcat(p, body);
    WithoutControlsFixed(body);
    DecodedInFront(WithoutControls(p), body);
    p' := TrimInFront(Decoded(WithoutControls(p)), body);
  }

  // ---------------------------------------------------------------------------
  // Lists of addresses
  // ---------------------------------------------------------------------------

  function AddressText(a: Option<MailAddress>): string {
    match a
    case None => ""
    case Some(addr) => addr.mailbox + "@" + addr.host
  }

  function HostOf(a: Option<MailAddress>): string {
    match a
    case None => ""
    case Some(addr) => addr.host
  }

  /** An address that survives printing and sanitising. */
  predicate Good(a: Option<MailAddress>) {
    a.Some? && Printable(a.value.mailbox, a.value.host) && Plain(a.value.mailbox) && Plain(a.value.host)
  }

  predicate Named(a: Option<MailAddress>) {
    a.Some? && a.value.personalName != ""
  }

  predicate Bare(a: Option<MailAddress>) {
    Good(a) && !Named(a)
  }

  /** The addresses behind the first one, as the list prints them. */
  function Following(addrs: seq<Option<MailAddress>>): string {
    if addrs == [] then "" else ", " + FormatAddress(addrs[0]) + Following(addrs[1..])
  }

  lemma {:induction false} ListHead(addrs: seq<Option<MailAddress>>)
    requires addrs != []
    ensures FormatAddressList(addrs) == FormatAddress(addrs[0]) + Following(addrs[1..])
  {
    hide FormatAddress;
    if |addrs| > 1 {
      ListHead(addrs[1..]);
    } else {
      assert FormatAddress(addrs[0]) + "" == FormatAddress(addrs[0]);
    }
  }

  lemma {:induction false} ListStep(addrs: seq<Option<MailAddress>>)
    requires |addrs| > 1
    ensures FormatAddressList(addrs) == FormatAddress(addrs[0]) + (", " + FormatAddressList(addrs[1..]))
  {
    hide FormatAddress;
  }

  /** The text of a list around one of its addresses. */
  lemma {:induction false} ListAround(addrs: seq<Option<MailAddress>>, j: nat) returns (p: string)
    requires j < |addrs|
    ensures FormatAddressList(addrs) == p + FormatAddress(addrs[j]) + Following(addrs[j + 1..])
    ensures p == "" <==> j == 0
  {
    hide FormatAddress, Following, FormatAddressList;
    if j == 0 {
      p := "";
      ListHead(addrs);
      assert p + FormatAddress(addrs[0]) == FormatAddress(addrs[0]);
    } else {
      var p' := ListAround(addrs[1..], j - 1);
      p := FormatAddress(addrs[0]) + (", " + p');
      assert addrs[1..][j..] == addrs[j + 1..];
      ListStep(addrs);
      assert FormatAddress(addrs[0]) + (", " + (p' + FormatAddress(addrs[j]) + Following(addrs[j + 1..])))
          == p + FormatAddress(addrs[j]) + Following(addrs[j + 1..]);
    }
  }

  /** Bare addresses print plainly. */
  lemma {:induction false} BareText(a: Option<MailAddress>)
    requires Bare(a)
    ensures FormatAddress(a) == AddressText(a) && Plain(AddressText(a)) && Plain(", " + AddressText(a))
    ensures var t := AddressText(a); t != "" && '<' !in t && '>' !in t && !IsSpace(t[0]) && !IsSpace(t[|t| - 1])
  {
    hide Plain, IsSpace;
    PlainParts(a.value.mailbox, a.value.host);
    PlainComma();
    PlainConcat(", ", AddressText(a));
    var t := AddressText(a);
    assert t[0] == a.value.mailbox[0] && t[|t| - 1] == a.value.host[|a.value.host| - 1];
  }

  lemma {:induction false} FollowingPlain(addrs: seq<Option<MailAddress>>)
    requires forall i :: 0 <= i < |addrs| ==> Bare(addrs[i])
    ensures Unbracketed(Following(addrs)) && Plain(Following(addrs))
  {
    hide Plain, Bare, IsSpace, AddressText, FormatAddress;
    PlainComma();
    if addrs != [] {
      var t, rest := ", " + AddressText(addrs[0]), Following(addrs[1..]);
      BareText(addrs[0]);
      FollowingPlain(addrs[1..]);
      PlainConcat(t, rest);
      assert t[|t| - 1] == AddressText(addrs[0])[|AddressText(addrs[0])| - 1];
      assert Following(addrs) == t + rest;
      assert (t + rest)[|t + rest| - 1] == if rest == "" then t[|t| - 1] else rest[|rest| - 1];
    }
  }

  lemma PlainComma()
    ensures Plain(", ") && Plain("")
  {
  }

  lemma {:induction false} PlainConcat(a: string, b: string)
    requires Plain(a) && Plain(b)
    ensures Plain(a + b)
  {
    hide IsControl;
  }

  /** The last address with a display name is found, whatever stands before it. */
  lemma {:induction false} NamedSender(addrs: seq<Option<MailAddress>>, j: nat, lower: string -> string)
    requires j < |addrs| && Good(addrs[j]) && Named(addrs[j])
    requires forall k :: j < k < |addrs| ==> Bare(addrs[k])
    ensures ParseSenderWith(SanitizedAddressField(FormatAddressList(addrs)), lower)
         == (AddressText(addrs[j]), lower(HostOf(addrs[j])))
  {
    hide ParseSenderWith, SanitizedHeader, SanitizedAddressField, FormatAddressList, Printable, Plain, Following,
      Bare;
    var a, after := addrs[j].value, addrs[j + 1..];
    var p := ListAround(addrs, j);
    FollowingPlain(after);
    NamedRecovered(p, SanitizedHeader(a.personalName), a.mailbox, a.host, Following(after), lower);
  }

  lemma {:induction false} NamedRecovered(p: string, name: string, mailbox: string, host: string, tail: string,
                                          lower: string -> string)
    requires Printable(mailbox, host) && Plain(mailbox) && Plain(host) && Unbracketed(tail) && Plain(tail)
    ensures ParseSenderWith(SanitizedAddressField(p + (name + (" <" + (mailbox + "@" + host) + ">")) + tail), lower)
         == (mailbox + "@" + host, lower(host))
  {
    hide ParseSenderWith, SanitizedAddressField, Printable, Plain, Unbracketed;
    var b := "<" + (mailbox + "@" + host) + ">";
    PlainParts(mailbox, host);
    PlainConcat(b, tail);
    BracketsTrimmed(mailbox + "@" + host, tail);
    assert p + (name + (" <" + (mailbox + "@" + host) + ">")) + tail == (p + name + " ") + (b + tail) by {
      Regroup(p, name, b, tail);
    }
    var p' := SanitizedInFront(p + name + " ", b + tail);
    ParseBracketed(p', mailbox, host, tail, lower);
  }

  lemma {:induction false} Regroup(p: string, name: string, b: string, tail: string)
    ensures p + (name + (" " + b)) + tail == (p + name + " ") + (b + tail)
  {
  }

  /** Without any display name the whole list is taken for one address, at the last host. */
  lemma {:induction false} BareSender(addrs: seq<Option<MailAddress>>, lower: string -> string)
    requires addrs != [] && forall i :: 0 <= i < |addrs| ==> Bare(addrs[i])
    ensures ParseSenderWith(SanitizedAddressField(FormatAddressList(addrs)), lower)
         == (FormatAddressList(addrs), lower(HostOf(addrs[|addrs| - 1])))
  {
    hide ParseSenderWith, SanitizedAddressField, FormatAddressList, Plain, Following, Bare, AddressText, FormatAddress;
    var s, last := FormatAddressList(addrs), addrs[|addrs| - 1];
    BareShape(addrs);
    SanitizedPlain(s);
    var p := BareEnd(addrs);
    ParsePlain(p, last, s, lower);
  }

  lemma {:induction false} BareEnd(addrs: seq<Option<MailAddress>>) returns (p: string)
    requires addrs != [] && Bare(addrs[|addrs| - 1])
    ensures FormatAddressList(addrs) == p + AddressText(addrs[|addrs| - 1])
    ensures p == "" <==> |addrs| == 1
  {
    hide FormatAddressList, Bare, AddressText, FormatAddress;
    var n := |addrs| - 1;
    p := ListAround(addrs, n);
    BareText(addrs[n]);
    assert addrs[n + 1..] == [];
    assert p + AddressText(addrs[n]) + "" == p + AddressText(addrs[n]);
  }

  lemma {:induction false} BareShape(addrs: seq<Option<MailAddress>>)
    requires addrs != [] && forall i :: 0 <= i < |addrs| ==> Bare(addrs[i])
    ensures var s := FormatAddressList(addrs); Plain(s) && Trimmed(s) && '<' !in s && s != ""
  {
    hide FormatAddressList, Plain, Following, Bare, AddressText, FormatAddress, IsSpace;
    ListHead(addrs);
    BareText(addrs[0]);
    FollowingPlain(addrs[1..]);
    var t, rest := AddressText(addrs[0]), Following(addrs[1..]);
    PlainConcat(t, rest);
    assert (t + rest)[0] == t[0];
    assert (t + rest)[|t + rest| - 1] == if rest == "" then t[|t| - 1] else rest[|rest| - 1];
  }

  lemma {:induction false} ParsePlain(p: string, last: Option<MailAddress>, s: string, lower: string -> string)
    requires Bare(last) && s == p + AddressText(last) && Trimmed(s) && '<' !in s && s != ""
    ensures ParseSenderWith(s, lower) == (s, lower(HostOf(last)))
  {
    hide LastIndexOf, Trim, At, IsSpace, Plain, Trimmed;
    TrimFixed(s);
    NoBracket(s);
    LastMark(p + last.value.mailbox, '@', last.value.host);
    assert s == p + last.value.mailbox + "@" + last.value.host;
  }

  lemma {:induction false} NoBracket(s: string)
    requires '<' !in s
    ensures LastIndexOf(s, "<") < 0
  {
    hide LastIndexOf, At;
    AtChar(s, '<');
  }

  /** A position holds the last display name of a list. */
  predicate IsLastNamed(addrs: seq<Option<MailAddress>>, j: int) {
    0 <= j < |addrs| && Named(addrs[j]) && forall k :: j < k < |addrs| ==> !Named(addrs[k])
  }

  lemma {:induction false} LastNamedExists(addrs: seq<Option<MailAddress>>) returns (j: int)
    ensures IsLastNamed(addrs, j) || (j < 0 && forall k :: 0 <= k < |addrs| ==> !Named(addrs[k]))
  {
    hide Named;
    if addrs == [] {
      j := -1;
    } else if Named(addrs[|addrs| - 1]) {
      j := |addrs| - 1;
    } else {
      j := LastNamedExists(addrs[..|addrs| - 1]);
    }
  }

  /**
    The statistics see the last address of a list exactly when it is the only one, or the
    last address with a display name is that address. (`NamedSender` and `BareSender` say
    what they see otherwise.)
   */
  lemma {:induction false} SenderRecovered(addrs: seq<Option<MailAddress>>, lower: string -> string)
    requires addrs != [] && forall i :: 0 <= i < |addrs| ==> Good(addrs[i])
    ensures var last := AddressText(addrs[|addrs| - 1]);
            ParseSenderWith(SanitizedAddressField(FormatAddressList(addrs)), lower).0 == last <==>
              (|addrs| == 1 || exists j :: IsLastNamed(addrs, j) && AddressText(addrs[j]) == last)
  {
    hide ParseSenderWith, SanitizedAddressField, FormatAddressList, Good, Named, AddressText;
    var j := LastNamedExists(addrs);
    if j >= 0 {
      NamedSender(addrs, j, lower);
      assert forall i :: IsLastNamed(addrs, i) ==> i == j;
      if |addrs| == 1 { assert j == 0; }
    } else {
      BareSender(addrs, lower);
      BareLength(addrs);
      assert forall i :: !IsLastNamed(addrs, i);
    }
  }

  lemma {:induction false} BareLength(addrs: seq<Option<MailAddress>>)
    requires addrs != [] && forall i :: 0 <= i < |addrs| ==> Bare(addrs[i])
    ensures FormatAddressList(addrs) == AddressText(addrs[|addrs| - 1]) <==> |addrs| == 1
  {
    hide FormatAddressList, Following, Bare, AddressText, FormatAddress;
    var p := BareEnd(addrs);
    var t := AddressText(addrs[|addrs| - 1]);
    assert |p + t| == |p| + |t|;
    assert "" + t == t;
  }

  lemma {:induction false} PlainParts(mailbox: string, host: string)
    requires Plain(mailbox) && Plain(host)
    ensures Plain(mailbox + "@" + host) && Plain("<" + (mailbox + "@" + host) + ">")
  {
    hide IsControl;
    assert !IsControl('@' as int) && !IsControl('<' as int) && !IsControl('>' as int) by { AddressMarks(); }
  }

  lemma AddressMarks()
    ensures !IsControl('@' as int) && !IsControl('<' as int) && !IsControl('>' as int)
  {
  }

  lemma {:induction false} SanitizedPlain(s: string)
    requires Plain(s) && Trimmed(s)
    ensures SanitizedAddressField(s) == s
  {
    hide Decoded, WithoutControls, Trim;
    WithoutControlsFixed(s);
    DecodedPlain(s);
    TrimFixed(s);
  }

  /** Lists are printed one after the other, with commas between. */
  lemma {:induction false} ListsJoin(a: seq<Option<MailAddress>>, b: seq<Option<MailAddress>>)
    requires a != [] && b != []
    ensures FormatAddressList(a + b) == FormatAddressList(a) + (", " + FormatAddressList(b))
  {
    hide FormatAddress, FormatAddressList;
    assert (a + b)[1..] == a[1..] + b;
    ListStep(a + b);
    if |a| == 1 {
      assert a[1..] == [] && [] + b == b;
      assert a == [a[0]];
      ListAlone(a[0]);
    } else {
      ListsJoin(a[1..], b);
      ListStep(a);
      var head, tail := FormatAddressList(a[1..]), ", " + FormatAddressList(b);
      Associate(", ", head, tail);
      Associate(FormatAddress(a[0]), ", " + head, tail);
      assert a + b != [] && (a + b)[0] == a[0];
    }
  }

  /** A list of one is printed as its address; no list and no address leave nothing. */
  lemma {:induction false} ListAlone(a: Option<MailAddress>)
    ensures FormatAddressList([a]) == FormatAddress(a)
    ensures FormatAddressList([]) == FormatAddress(None) == ""
  {
    hide SanitizedHeader;
  }

  /** Plain names are printed as they are, and lists with commas. */
  lemma {:induction false} PrintedPlainly(a: MailAddress, b: MailAddress)
    requires a.personalName != "" && SanitizedHeader(a.personalName) == a.personalName && b.personalName == ""
    ensures FormatAddressList([Some(a), Some(b)])
         == a.personalName + " <" + a.mailbox + "@" + a.host + ">, " + b.mailbox + "@" + b.host
  {
    hide SanitizedHeader, FormatAddress, FormatAddressList, Following;
    var addrs := [Some(a), Some(b)];
    ListHead(addrs);
    assert addrs[1..] == [Some(b)];
    NamedText(a);
    BareFollowing(b);
    Associate(a.personalName + " <" + a.mailbox + "@" + a.host + ">", ", ", b.mailbox + "@" + b.host);
    CommaJoined(a.personalName + " <" + a.mailbox + "@" + a.host, b.mailbox, b.host);
  }

  lemma {:induction false} NamedText(a: MailAddress)
    requires a.personalName != "" && SanitizedHeader(a.personalName) == a.personalName
    ensures FormatAddress(Some(a)) == a.personalName + " <" + a.mailbox + "@" + a.host + ">"
  {
    hide SanitizedHeader;
  }

  lemma {:induction false} BareFollowing(b: MailAddress)
    requires b.personalName == ""
    ensures Following([Some(b)]) == ", " + (b.mailbox + "@" + b.host)
  {
    hide SanitizedHeader;
    assert [Some(b)][1..] == [];
    assert ", " + (b.mailbox + "@" + b.host) + "" == ", " + (b.mailbox + "@" + b.host);
  }

  lemma {:induction false} CommaJoined(x: string, mailbox: string, host: string)
    ensures x + ">" + (", " + (mailbox + "@" + host)) == x + ">, " + mailbox + "@" + host
  {
    Associate(x, ">", ", ");
    Associate(x + ">, ", mailbox, "@");
    Associate(x + ">, ", mailbox + "@", host);
    Associate(x + ">", ", ", mailbox + "@" + host);
    assert ">" + ", " == ">, ";
  }

  // ---------------------------------------------------------------------------
  // Other senders
  // ---------------------------------------------------------------------------

  /** An unclosed bracket runs to the end. */
  lemma {:induction false} UnclosedBracket(p: string, mailbox: string, host: string, lower: string -> string)
    requires Printable(mailbox, host) && '>' !in p
    ensures ParseSenderWith(p + ("<" + (mailbox + "@" + host)), lower) == (mailbox + "@" + host, lower(host))
  {
    hide LastIndexOf, Trim, Trimmed, ExtractAddress, Printable;
    var addr := mailbox + "@" + host;
    var b := "<" + addr;
    SplitAtHost(mailbox, host);
    OpenedTrimmed(mailbox, host);
    var p' := TrimInFront(p, b);
    TrimmedPart(p, b, p');
    ExtractOpen(p + b, p', addr);
    NotEmpty(mailbox, host);
    LastMark(mailbox, '@', host);
  }

  lemma {:induction false} NotEmpty(mailbox: string, host: string)
    requires Printable(mailbox, host)
    ensures mailbox != "" && host != "" && '@' !in host
  {
  }

  lemma {:induction false} OpenedTrimmed(mailbox: string, host: string)
    requires Printable(mailbox, host)
    ensures var b := "<" + (mailbox + "@" + host);
            Trimmed(b) && b != "" && '>' !in b && '<' !in mailbox + "@" + host
  {
    var b := "<" + (mailbox + "@" + host);
    assert b[|b| - 1] == host[|host| - 1];
  }

  lemma {:induction false} ExtractOpen(from: string, p: string, addr: string)
    requires Trim(from) == p + ("<" + addr) && '>' !in p + ("<" + addr) && '<' !in addr && Trimmed(addr)
    ensures ExtractAddress(from) == addr
  {
    hide LastIndexOf, Trim, Trimmed;
    var s := p + ("<" + addr);
    assert s == p + "<" + addr;
    LastMark(p, '<', addr);
    NoClose(s);
    TrimFixed(addr);
    assert s[|p| + 1..|s|] == s[|p| + 1..] == addr;
  }

  lemma {:induction false} TrimmedPart(p: string, b: string, p': string)
    requires Trim(p + b) == p' + b && '>' !in p && '>' !in b
    ensures '>' !in p' + b
  {
    hide Trim;
    var w, w' := TrimSplit(p + b);
    assert forall c :: c in Trim(p + b) ==> c in p + b;
    assert forall c :: c in p + b ==> c in p || c in b;
  }

  lemma {:induction false} NoClose(s: string)
    requires '>' !in s
    ensures LastIndexOf(s, ">") < 0
  {
    hide LastIndexOf, At;
    AtChar(s, '>');
  }

  /**
    A sender is an address with something on both sides of its last '@', and then its
    domain is what follows; anything else is no sender.
   */
  lemma {:induction false} SenderShape(from: string, lower: string -> string)
    ensures var addr := ExtractAddress(from);
            || (exists mailbox, host ::
                  && mailbox != "" && host != "" && '@' !in host && addr == mailbox + "@" + host
                  && ParseSenderWith(from, lower) == (addr, lower(host)))
            || (ParseSenderWith(from, lower) == ("", "")
                && forall mailbox, host ::
                     mailbox != "" && host != "" && '@' !in host ==> addr != mailbox + "@" + host)
  {
    hide ExtractAddress, LastIndexOf;
    var addr := ExtractAddress(from);
    var i := LastIndexOf(addr, "@");
    if addr != "" && 0 < i < |addr| - 1 {
      AtLast(addr);
      assert addr == addr[..i] + "@" + addr[i + 1..];
    } else {
      forall mailbox, host | mailbox != "" && host != "" && '@' !in host
        ensures addr != mailbox + "@" + host
      {
        LastMark(mailbox, '@', host);
      }
    }
  }

  lemma {:induction false} AtLast(s: string)
    requires LastIndexOf(s, "@") >= 0
    ensures var i := LastIndexOf(s, "@"); i < |s| && s[i] == '@' && '@' !in s[i + 1..]
  {
    hide LastIndexOf, At;
    AtChar(s, '@');
    var i := LastIndexOf(s, "@");
    assert forall k :: i < k < |s| ==> s[k] != '@';
  }
}
