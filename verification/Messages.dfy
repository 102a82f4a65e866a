/** Message kinds, their validation and their normal form (internal/entity). */
module Messages {

  datatype Channel =
    | ChannelEmail
    | ChannelSMS
    | ChannelTelegram
    | ChannelDiscord
    | ChannelMattermost
    | ChannelBale
    | ChannelHTTP

  datatype Attachment = Attachment(name: string, contentType: string, size: int, data: seq<bv8>)

  datatype Message =
    | SMSMessage(to: seq<string>, text: string)
    | HTTPMessage(url: string, verb: string, headers: map<string, string>, body: string)
    | EmailMessage(recipients: seq<string>, cc: seq<string>, bcc: seq<string>, subject: string,
                   htmlBody: string, textBody: string, attachments: seq<Attachment>)
    | MattermostMessage(channelId: string, post: string, title: string, attachments: seq<Attachment>)
    | BaleMessage(chatId: string, note: string, attachments: seq<Attachment>)
  {
    function Channel(): Channel {
      match this
      case SMSMessage(_, _) => ChannelSMS
      case HTTPMessage(_, _, _, _) => ChannelHTTP
      case EmailMessage(_, _, _, _, _, _, _) => ChannelEmail
      case MattermostMessage(_, _, _, _) => ChannelMattermost
      case BaleMessage(_, _, _) => ChannelBale
    }
  }

  /** Upper case within ASCII. */
  function AsciiUpper(c: char): char {
    if 'a' <= c <= 'z' then c - 32 as char else c
  }

  /** What Unicode promises of upper-casing: it is the usual one on ASCII, and no result is a lower-case ASCII letter. */
  ghost predicate UppersAscii(upper: char -> char) {
    forall c: char :: (c < '\U{0080}' ==> upper(c) == AsciiUpper(c)) && !('a' <= upper(c) <= 'z')
  }

  type UpperCase = upper: char -> char | UppersAscii(upper) witness AsciiUpper

  /** Library code this model does not open: Go's URL parser, the header rules, and upper case outside ASCII. */
  datatype Library = Library(
    urlAccepted: string -> bool, headersAccepted: map<string, string> -> bool, upper: UpperCase)

  // ---------- Text ----------

  /** Unicode white space, as strings.TrimSpace strips it. */
  predicate IsSpace(c: char) {
    || '\t' <= c <= '\r' || c == ' ' || c == '\U{0085}' || c == '\U{00A0}' || c == '\U{1680}'
    || '\U{2000}' <= c <= '\U{200A}' || c == '\U{2028}' || c == '\U{2029}' || c == '\U{202F}'
    || c == '\U{205F}' || c == '\U{3000}'
  }

  /** The first index from i on that is not blank, or the end. */
  function InkFrom(s: string, i: nat): (k: nat)
    requires i <= |s|
    ensures i <= k <= |s|
    ensures forall j :: i <= j < k ==> IsSpace(s[j])
    ensures k < |s| ==> !IsSpace(s[k])
    decreases |s| - i
  {
    if i < |s| && IsSpace(s[i]) then InkFrom(s, i + 1) else i
  }

  /** The end of the text from i to j once its blank suffix is gone. */
  function InkUpTo(s: string, i: nat, j: nat): (k: nat)
    requires i <= j <= |s|
    ensures i <= k <= j
    ensures forall l :: k <= l < j ==> IsSpace(s[l])
    ensures i < k ==> !IsSpace(s[k - 1])
    decreases j
  {
    if i < j && IsSpace(s[j - 1]) then InkUpTo(s, i, j - 1) else j
  }

  /** strings.TrimSpace: the text between its blank ends; what remains has no blank end. */
  function TrimSpace(s: string): (r: string)
    ensures r != "" ==> !IsSpace(r[0]) && !IsSpace(r[|r| - 1])
  {
    var a := InkFrom(s, 0);
    s[a..InkUpTo(s, a, |s|)]
  }

  /** Trimming takes away blanks at the ends and nothing else. */
  lemma TrimSpaceKeeps(s: string)
    ensures exists a, b | 0 <= a <= b <= |s| ::
              TrimSpace(s) == s[a..b] && (forall i | 0 <= i < a :: IsSpace(s[i])) && (forall i | b <= i < |s| :: IsSpace(s[i]))
  {
    var a := InkFrom(s, 0);
    var b := InkUpTo(s, a, |s|);
    assert TrimSpace(s) == s[a..b];
    hide IsSpace;
  }

  /** strings.ToUpper, rune by rune. */
  function ToUpper(lib: Library, s: string): (r: string)
    ensures |r| == |s|
    ensures forall i :: 0 <= i < |s| ==> r[i] == lib.upper(s[i])
  {
    if s == "" then "" else [lib.upper(s[0])] + ToUpper(lib, s[1..])
  }

  /** A text without blank ends is left alone. */
  lemma TrimmedIsFixed(s: string)
    requires s != "" ==> !IsSpace(s[0]) && !IsSpace(s[|s| - 1])
    ensures TrimSpace(s) == s
  {
    assert s[0..|s|] == s;
  }

  // ---------- SMS recipients ----------

  /** slices.DeleteFunc with the empty-string test. */
  function DropEmpty(to: seq<string>): seq<string> {
    if to == [] then []
    else if to[0] == "" then DropEmpty(to[1..])
    else [to[0]] + DropEmpty(to[1..])
  }

  /** slices.Compact: of each run of equal neighbours keep the first. */
  function Compact(to: seq<string>): seq<string> {
    if |to| < 2 then to
    else if to[0] == to[1] then Compact(to[1..])
    else [to[0]] + Compact(to[1..])
  }

  function Recipients(to: seq<string>): seq<string> {
    Compact(DropEmpty(to))
  }

  /** Written without reference to how the list is computed: `r` appears inside `s`, in order. */
  ghost predicate Subsequence(r: seq<string>, s: seq<string>) {
    if r == [] then true
    else if s == [] then false
    else (r[0] == s[0] && Subsequence(r[1..], s[1..])) || Subsequence(r, s[1..])
  }

  predicate NoRepeats(to: seq<string>) {
    forall i :: 0 <= i < |to| - 1 ==> to[i] != to[i + 1]
  }

  lemma {:induction false} DropEmptyKeeps(to: seq<string>)
    ensures forall x :: x in DropEmpty(to) <==> x in to && x != ""
    ensures Subsequence(DropEmpty(to), to)
  {
    if to != [] {
      DropEmptyKeeps(to[1..]);
      assert to == [to[0]] + to[1..];
    }
  }

  lemma {:induction false} CompactKeeps(to: seq<string>)
    ensures forall x :: x in Compact(to) <==> x in to
    ensures NoRepeats(Compact(to))
    ensures Subsequence(Compact(to), to)
    ensures to != [] ==> Compact(to) != [] && Compact(to)[0] == to[0]
  {
    if |to| < 2 {
      SubsequenceSelf(to);
    } else {
      CompactKeeps(to[1..]);
      assert to == [to[0]] + to[1..];
      assert to[1..][0] == to[1];
    }
  }

  lemma {:induction false} SubsequenceSelf(s: seq<string>)
    ensures Subsequence(s, s)
  {
    if s != [] { SubsequenceSelf(s[1..]); }
  }

  lemma {:induction false} SubsequenceTrans(a: seq<string>, b: seq<string>, c: seq<string>)
    requires Subsequence(a, b) && Subsequence(b, c)
    ensures Subsequence(a, c)
    decreases |c|
  {
    if a != [] && b != [] && c != [] {
      if b[0] == c[0] && Subsequence(b[1..], c[1..]) {
        if a[0] == b[0] && Subsequence(a[1..], b[1..]) {
          SubsequenceTrans(a[1..], b[1..], c[1..]);
        } else {
          SubsequenceTrans(a, b[1..], c[1..]);
        }
      } else {
        SubsequenceTrans(a, b, c[1..]);
      }
    }
  }

  lemma {:induction false} CleanIsFixed(to: seq<string>)
    requires "" !in to && NoRepeats(to)
    ensures DropEmpty(to) == to && Compact(to) == to
  {
    if to != [] {
      assert to == [to[0]] + to[1..];
      if |to| > 1 { assert to[0] != to[0 + 1]; }
      forall i | 0 <= i < |to[1..]| - 1
        ensures to[1..][i] != to[1..][i + 1]
      {
        assert to[i + 1] != to[i + 1 + 1];
      }
      CleanIsFixed(to[1..]);
    }
  }

  lemma {:induction false} SkipEmpty(r: seq<string>, to: seq<string>)
    requires Subsequence(r, to) && "" !in r
    ensures Subsequence(r, DropEmpty(to))
    decreases |to|
  {
    if r != [] && to != [] {
      if r[0] == to[0] && Subsequence(r[1..], to[1..]) {
        assert r == [r[0]] + r[1..];
        SkipEmpty(r[1..], to[1..]);
      } else {
        SkipEmpty(r, to[1..]);
      }
    }
  }

  lemma NoRepeatsTail(r: seq<string>)
    requires r != [] && NoRepeats(r)
    ensures NoRepeats(r[1..]) && (|r| > 1 ==> r[1] != r[0])
  {
    forall i | 0 <= i < |r[1..]| - 1
      ensures r[1..][i] != r[1..][i + 1]
    {
      assert r[i + 1] != r[i + 1 + 1];
    }
    if |r| > 1 { assert r[0] != r[0 + 1]; }
  }

  /** Of an equal pair in front either can be matched. */
  lemma SkipEqual(r: seq<string>, to: seq<string>)
    requires |to| > 1 && to[0] == to[1] && NoRepeats(r) && Subsequence(r, to)
    ensures Subsequence(r, to[1..])
  {
    if r != [] && r[0] == to[0] && Subsequence(r[1..], to[1..]) {
      NoRepeatsTail(r);
      if |r| > 1 { assert r[1..][0] == r[1] && to[1..][0] == to[1]; }
    }
  }

  /** No subsequence without equal neighbours is longer. */
  lemma {:induction false} CompactLongest(r: seq<string>, to: seq<string>)
    requires Subsequence(r, to) && NoRepeats(r)
    ensures |r| <= |Compact(to)|
    decreases |to|
  {
    if |to| < 2 {
      if r != [] && to != [] { assert to[1..] == []; }
    } else if to[0] == to[1] {
      SkipEqual(r, to);
      CompactLongest(r, to[1..]);
    } else if r != [] && r[0] == to[0] && Subsequence(r[1..], to[1..]) {
      NoRepeatsTail(r);
      CompactLongest(r[1..], to[1..]);
    } else if r != [] {
      CompactLongest(r, to[1..]);
    }
  }

  /**
   * What normalising recipients does: no empty entry, no equal neighbours, exactly the nonempty
   * inputs, in their order, and no more of them dropped than that takes; and a list that is already
   * so is left alone.
   */
  lemma RecipientsNormal(to: seq<string>)
    ensures "" !in Recipients(to) && NoRepeats(Recipients(to))
    ensures forall x :: x in Recipients(to) <==> x in to && x != ""
    ensures Subsequence(Recipients(to), to)
    ensures forall r | Subsequence(r, to) && "" !in r && NoRepeats(r) :: |r| <= |Recipients(to)|
    ensures Recipients(Recipients(to)) == Recipients(to)
  {
    forall r | Subsequence(r, to) && "" !in r && NoRepeats(r)
      ensures |r| <= |Recipients(to)|
    {
      SkipEmpty(r, to);
      CompactLongest(r, DropEmpty(to));
    }
    DropEmptyKeeps(to);
    CompactKeeps(DropEmpty(to));
    SubsequenceTrans(Recipients(to), DropEmpty(to), to);
    CleanIsFixed(Recipients(to));
  }

  /** An SMS message while it is being validated: its recipient list is replaced in place. */
  class SMSDraft {
    var to: seq<string>
    var text: string

    constructor (to: seq<string>, text: string)
      ensures this.to == to && this.text == text
    {
      this.to, this.text := to, text;
    }

    method Validate() returns (ok: bool)
      modifies this`to
      ensures to == Recipients(old(to))
      ensures ok <==> (exists x :: x in old(to) && x != "") && text != ""
    {
      to := DropEmpty(to);
      to := Compact(to);
      ghost var kept := to;
      ghost var before := old(to);
      RecipientsNormal(before);
      assert forall x :: x in kept <==> x in before && x != "";
      assert |to| > 0 ==> to[0] in kept;
      ok := |to| != 0 && text != "";
    }
  }

  // ---------- HTTP method ----------

  const POST := "POST"

  /** RFC 9110 token characters (section 5.6.2), the only ones net/http takes in a method. */
  predicate IsTokenRune(c: char) {
    || 'a' <= c <= 'z' || 'A' <= c <= 'Z' || '0' <= c <= '9'
    || c in "!#$%&'*+-.^_`|~"
  }

  function EffectiveMethod(lib: Library, verb: string): string {
    if TrimSpace(verb) == "" then POST else ToUpper(lib, TrimSpace(verb))
  }

  lemma TokenRuneIsUpper(lib: Library, c: char)
    requires IsTokenRune(lib.upper(c))
    ensures lib.upper(lib.upper(c)) == lib.upper(c) && !IsSpace(lib.upper(c))
  {
  }

  /** Upper case made of token characters is its own upper case, and has no blank to trim. */
  lemma UpperIsFixed(lib: Library, s: string)
    requires forall c <- ToUpper(lib, s) :: IsTokenRune(c)
    ensures ToUpper(lib, ToUpper(lib, s)) == ToUpper(lib, s) && TrimSpace(ToUpper(lib, s)) == ToUpper(lib, s)
  {
    hide IsTokenRune, IsSpace, TrimSpace;
    var u := ToUpper(lib, s);
    forall i | 0 <= i < |u|
      ensures lib.upper(u[i]) == u[i] && !IsSpace(u[i])
    {
      assert u[i] in u;
      TokenRuneIsUpper(lib, s[i]);
    }
    TrimmedIsFixed(u);
    assert ToUpper(lib, u) == u;
  }

  /** A method is never empty, is POST when left blank, and a method net/http takes is left alone the second time. */
  lemma EffectiveMethodNormal(lib: Library, verb: string)
    ensures EffectiveMethod(lib, verb) != ""
    ensures TrimSpace(verb) == "" ==> EffectiveMethod(lib, verb) == POST
    ensures (forall c <- EffectiveMethod(lib, verb) :: IsTokenRune(c))
            ==> EffectiveMethod(lib, EffectiveMethod(lib, verb)) == EffectiveMethod(lib, verb)
  {
    var t := TrimSpace(verb);
    if t == "" {
      TrimmedIsFixed(POST);
      assert POST[0] == 'P' && POST[1] == 'O' && POST[2] == 'S' && POST[3] == 'T';
      assert ToUpper(lib, POST) == POST;
    } else if forall c <- ToUpper(lib, t) :: IsTokenRune(c) {
      UpperIsFixed(lib, t);
    }
  }

  /** Two ASCII methods have the same effect exactly when they differ in case and outer blanks only. */
  lemma MethodsCompare(lib: Library, a: string, b: string)
    requires TrimSpace(a) != "" && TrimSpace(b) != ""
    requires (forall c <- TrimSpace(a) :: c < '\U{0080}') && (forall c <- TrimSpace(b) :: c < '\U{0080}')
    ensures EffectiveMethod(lib, a) == EffectiveMethod(lib, b)
       <==> && |TrimSpace(a)| == |TrimSpace(b)|
            && forall i :: 0 <= i < |TrimSpace(a)| ==> AsciiUpper(TrimSpace(a)[i]) == AsciiUpper(TrimSpace(b)[i])
  {
    hide TrimSpace;
    var s, t := TrimSpace(a), TrimSpace(b);
    assert forall i :: 0 <= i < |s| ==> s[i] in s && ToUpper(lib, s)[i] == AsciiUpper(s[i]);
    assert forall i :: 0 <= i < |t| ==> t[i] in t && ToUpper(lib, t)[i] == AsciiUpper(t[i]);
  }
}
