/** Canonical form and identity of a submission (service.go accept). */
module Submission {
  import opened Base
  import opened Messages
  import opened Outbox
  import opened Retry

  datatype Options = Options(maxRetries: int, sendAt: Option<Instant>, key: string)

  const YEAR_1: Instant := -62_135_596_800 * SECOND
  const YEAR_10000: Instant := 253_402_300_800 * SECOND

  /** Printable ASCII without the space, at most 200 characters. */
  predicate KeyAccepted(key: string) {
    |key| <= 200 && forall c <- key :: 33 <= c as int <= 126
  }

  /** What Message.Validate accepts, and the message as validation leaves it. */
  function Validated(lib: Library, m: Message): Option<Message> {
    match m
    case SMSMessage(to, text) =>
      if Recipients(to) == [] || text == "" then None else Some(SMSMessage(Recipients(to), text))
    case HTTPMessage(url, verb, headers, _) =>
      if && lib.urlAccepted(TrimSpace(url))
         && (forall c <- EffectiveMethod(lib, verb) :: IsTokenRune(c))
         && lib.headersAccepted(headers) then Some(m) else None
    case EmailMessage(to, _, _, subject, _, _, _) =>
      if to == [] || subject == "" then None else Some(m)
    case MattermostMessage(channelId, text, title, _) =>
      if (text == "" && title == "") || channelId == "" then None else Some(m)
    case BaleMessage(_, _, _) => Some(m)
  }

  function NormalForm(lib: Library, m: Message): Message {
    if m.HTTPMessage? then m.(verb := EffectiveMethod(lib, m.verb), url := TrimSpace(m.url)) else m
  }

  function TruncateToMicrosecond(t: Instant): Instant {
    t - t % MICROSECOND
  }

  /** The requested time to the microsecond. */
  function RequestedTime(sendAt: Option<Instant>): Option<Instant> {
    if sendAt.None? then None else Some(TruncateToMicrosecond(sendAt.value))
  }

  /** No time requested, or one within the years 1 to 9999. */
  predicate TimeAccepted(sendAt: Option<Instant>) {
    sendAt.Some? ==> YEAR_1 <= TruncateToMicrosecond(sendAt.value) < YEAR_10000
  }

  function Canonicalise(lib: Library, m: Message, o: Options): Option<Canonical> {
    var valid := Validated(lib, m);
    if KeyAccepted(o.key) && valid.Some? && TimeAccepted(o.sendAt)
    then Some(Canonical(NormalForm(lib, valid.value), NormalizeMaxRetries(o.maxRetries), RequestedTime(o.sendAt)))
    else None
  }

  /** The pending row accept hands to Create; Create fills in id and creation time. */
  function NewOutbox(c: Canonical, key: string, now: Instant, maxAge: Duration): Row {
    var later := c.sendAt.Some? && c.sendAt.value > now;
    var eligible := if later then c.sendAt.value else now;
    Row(0, now, c.payload.Channel(), key, c.payload, Digest(c), eligible,
        if maxAge > 0 then Some(eligible + maxAge) else None, c.maxRetries,
        Pending, 0, 0, NO_TOKEN, None, None, if later then Some(eligible) else None, "", None)
  }

  /**
   * The delivery window fixed at acceptance: it opens at the later of the acceptance and the
   * requested time, the row first falls due just then, and a positive age closes it that much later.
   */
  lemma AcceptedWindow(c: Canonical, key: string, now: Instant, maxAge: Duration)
    ensures var row := NewOutbox(c, key, now, maxAge);
            && row.eligibleAt == (if c.sendAt.Some? then Max(now, c.sendAt.value) else now)
            && (forall t :: now <= t ==> (Due(row, t) <==> row.eligibleAt <= t))
            && (row.retryDeadline.Some? <==> maxAge > 0)
            && (maxAge > 0 ==> row.retryDeadline.value - row.eligibleAt == maxAge && !Exhausted(row, row.eligibleAt))
            && row.channel == c.payload.Channel() && row.payload == c.payload && row.maxRetries == c.maxRetries
  {
  }

  lemma TrimSpaceTwice(s: string)
    ensures TrimSpace(TrimSpace(s)) == TrimSpace(s)
  {
    TrimmedIsFixed(TrimSpace(s));
  }

  /** Validation accepts its own normal form and then changes nothing. */
  lemma NormalFormStable(lib: Library, m: Message)
    requires Validated(lib, m).Some?
    ensures var n := NormalForm(lib, Validated(lib, m).value);
            && Validated(lib, n) == Some(n) && NormalForm(lib, n) == n && n.Channel() == m.Channel()
  {
    match m
    case SMSMessage(to, _) => RecipientsNormal(to);
    case HTTPMessage(url, verb, _, _) =>
      TrimSpaceTwice(url);
      EffectiveMethodNormal(lib, verb);
    case _ =>
  }

  lemma RequestedTimeStable(sendAt: Option<Instant>)
    requires TimeAccepted(sendAt)
    ensures RequestedTime(RequestedTime(sendAt)) == RequestedTime(sendAt) && TimeAccepted(RequestedTime(sendAt))
  {
    if sendAt.Some? {
      var q := sendAt.value / MICROSECOND;
      assert TruncateToMicrosecond(sendAt.value) == MICROSECOND * q;
      assert (MICROSECOND * q) % MICROSECOND == 0;
    }
  }

  /** Submitting the stored form of an accepted submission again yields the very same canonical tuple. */
  lemma CanonicaliseStable(lib: Library, m: Message, o: Options)
    ensures Canonicalise(lib, m, o).Some? ==>
              var c := Canonicalise(lib, m, o).value;
              && Canonicalise(lib, c.payload, Options(c.maxRetries, c.sendAt, o.key)) == Some(c)
              && c.payload.Channel() == m.Channel()
  {
    if Canonicalise(lib, m, o).Some? {
      NormalFormStable(lib, m);
      RequestedTimeStable(o.sendAt);
    }
  }

  /**
   * Which submissions are accepted: the key is at most 200 printable ASCII characters, the requested
   * time lies in the years 1 to 9999, and the message has what its kind needs.
   */
  lemma AcceptedExactly(lib: Library, m: Message, o: Options)
    ensures Canonicalise(lib, m, o).Some? <==>
              && |o.key| <= 200 && (forall i | 0 <= i < |o.key| :: '!' <= o.key[i] <= '~')
              && (o.sendAt.Some? ==>
                    -62_135_596_800 * SECOND <= o.sendAt.value < 253_402_300_800 * SECOND)
              && match m
                 case SMSMessage(to, text) => (exists x <- to :: x != "") && text != ""
                 case HTTPMessage(url, verb, headers, _) =>
                   && lib.urlAccepted(TrimSpace(url)) && lib.headersAccepted(headers)
                   && (forall c <- EffectiveMethod(lib, verb) :: IsTokenRune(c))
                 case EmailMessage(to, _, _, subject, _, _, _) => |to| > 0 && subject != ""
                 case MattermostMessage(channelId, text, title, _) => channelId != "" && (text != "" || title != "")
                 case BaleMessage(_, _, _) => true
  {
    KeyByIndex(o.key);
    TimeByInstant(o.sendAt);
    if m.SMSMessage? {
      RecipientsNormal(m.to);
      assert Recipients(m.to) != [] ==> Recipients(m.to)[0] in Recipients(m.to);
    }
    hide KeyAccepted, TimeAccepted, EffectiveMethod, TrimSpace, IsTokenRune, Recipients;
  }

  lemma KeyByIndex(key: string)
    ensures KeyAccepted(key) <==> |key| <= 200 && forall i | 0 <= i < |key| :: '!' <= key[i] <= '~'
  {
    assert forall i | 0 <= i < |key| :: key[i] in key;
    assert '!' as int == 33 && '~' as int == 126;
  }

  /** Both ends of the accepted years are whole microseconds, so truncation does not move a time across them. */
  lemma TimeByInstant(sendAt: Option<Instant>)
    ensures TimeAccepted(sendAt) <==> (sendAt.Some? ==> YEAR_1 <= sendAt.value < YEAR_10000)
  {
    if sendAt.Some? {
      assert YEAR_1 % MICROSECOND == 0 && YEAR_10000 % MICROSECOND == 0;
      var q := sendAt.value / MICROSECOND;
      assert TruncateToMicrosecond(sendAt.value) == MICROSECOND * q;
    }
  }

  /**
   * What the stored form keeps of a submission: an HTTP message with its URL trimmed and its method
   * normalised, an SMS with its recipients normalised, any other message as it came; the retry limit,
   * with -1 for every negative one; and the requested time to the microsecond.
   */
  lemma StoredFields(lib: Library, m: Message, o: Options)
    requires Canonicalise(lib, m, o).Some?
    ensures var c := Canonicalise(lib, m, o).value;
            && c.payload == (match m
                             case HTTPMessage(url, verb, headers, body) =>
                               HTTPMessage(TrimSpace(url), EffectiveMethod(lib, verb), headers, body)
                             case SMSMessage(to, text) => SMSMessage(Recipients(to), text)
                             case _ => m)
            && c.payload.Channel() == (match m
                                       case SMSMessage(_, _) => ChannelSMS
                                       case HTTPMessage(_, _, _, _) => ChannelHTTP
                                       case EmailMessage(_, _, _, _, _, _, _) => ChannelEmail
                                       case MattermostMessage(_, _, _, _) => ChannelMattermost
                                       case BaleMessage(_, _, _) => ChannelBale)
            && c.maxRetries == (if o.maxRetries < 0 then -1 else o.maxRetries)
            && c.sendAt.Some? == o.sendAt.Some?
            && (c.sendAt.Some? ==> c.sendAt.value % 1000 == 0 && c.sendAt.value <= o.sendAt.value < c.sendAt.value + 1000)
  {
    RequestedIs(o.sendAt);
    hide TrimSpace, EffectiveMethod, Recipients, RequestedTime, TimeAccepted;
  }

  lemma RequestedIs(sendAt: Option<Instant>)
    ensures var r := RequestedTime(sendAt);
            && r.Some? == sendAt.Some?
            && (r.Some? ==> r.value % 1000 == 0 && r.value <= sendAt.value < r.value + 1000)
  {
    if sendAt.Some? {
      var q := sendAt.value / MICROSECOND;
      assert TruncateToMicrosecond(sendAt.value) == MICROSECOND * q;
    }
  }

  /**
   * When two accepted submissions count as the same: the same kind of message with equal stored
   * fields, equal retry limits once every negative limit is one value, and the same requested
   * microsecond (or none requested).
   */
  lemma SameFingerprint(lib: Library, m1: Message, o1: Options, m2: Message, o2: Options)
    requires Canonicalise(lib, m1, o1).Some? && Canonicalise(lib, m2, o2).Some?
    ensures Digest(Canonicalise(lib, m1, o1).value) == Digest(Canonicalise(lib, m2, o2).value)
       <==> && (if m1.HTTPMessage? && m2.HTTPMessage?
                then TrimSpace(m1.url) == TrimSpace(m2.url) && EffectiveMethod(lib, m1.verb) == EffectiveMethod(lib, m2.verb)
                     && m1.headers == m2.headers && m1.body == m2.body
                else if m1.SMSMessage? && m2.SMSMessage?
                then Recipients(m1.to) == Recipients(m2.to) && m1.text == m2.text
                else m1 == m2)
            && (o1.maxRetries == o2.maxRetries || (o1.maxRetries < 0 && o2.maxRetries < 0))
            && o1.sendAt.Some? == o2.sendAt.Some?
            && (o1.sendAt.Some? ==> o1.sendAt.value / MICROSECOND == o2.sendAt.value / MICROSECOND)
  {
    if o1.sendAt.Some? && o2.sendAt.Some? {
      var t1, t2 := o1.sendAt.value, o2.sendAt.value;
      assert TruncateToMicrosecond(t1) == MICROSECOND * (t1 / MICROSECOND);
      assert TruncateToMicrosecond(t2) == MICROSECOND * (t2 / MICROSECOND);
    }
  }
}
