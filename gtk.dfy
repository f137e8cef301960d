/** The logic of the settings panel in gtk/src/lib.rs, taken out of the GTK
    code: the poller that fetches a code and counts down to the end of its
    30-second window, the mapping from poller messages to what the panel
    shows, the accept rule of the password dialog, the secure boot state and
    the enrollment URL. Times are whole seconds since the Unix epoch. */
module PopsecGtk {
  import opened Wrappers
  import opened Numerals
  import Tpm2Totp
  import Base32
  import Dbus

  /** RFC 6238 section 4: codes change every 30 seconds, counted from the epoch. */
  const TIME_STEP := 30

  /** The end of the window holding `start`: second 30 of the same minute
      when the second is under 30, otherwise second 0 of the next minute. */
  function WindowEnd(start: nat): nat
  {
    var second := start % 60;
    if second < 30 then start - second + 30 else start - second + 60
  }

  /** The window end is the next multiple of 30 after `start`, so between 1
      and 30 seconds remain. */
  lemma WindowBounds(start: nat)
    ensures WindowEnd(start) == (start / TIME_STEP + 1) * TIME_STEP
    ensures WindowEnd(start) % TIME_STEP == 0
    ensures 1 <= WindowEnd(start) - start <= TIME_STEP
  {
    var q, second := start / 60, start % 60;
    assert start == 60 * q + second;
    if second < 30 {
      assert start / 30 == 2 * q;
      assert WindowEnd(start) == 30 * (2 * q + 1);
    } else {
      assert start / 30 == 2 * q + 1;
      assert WindowEnd(start) == 30 * (2 * q + 2);
    }
  }

  /** 12:00:17 leaves 13 seconds, 12:00:31 leaves 29. */
  lemma WindowExamples()
    ensures WindowEnd(43200 + 17) - (43200 + 17) == 13
    ensures WindowEnd(43200 + 31) - (43200 + 31) == 29
  {
  }

  /** A failure of the D-Bus client: a decoded engine error, or a transport
      failure known only by its text. */
  datatype ClientError = Totp(kind: Tpm2Totp.TotpError) | Transport(text: string)

  /** The Display text of a client error. */
  function ErrorText(e: ClientError): string
  {
    match e
    case Totp(kind) => Tpm2Totp.Message(kind)
    case Transport(text) => text
  }

  /** What the poller thread sends to the panel. `Timeout` carries the
      seconds left in the window; the panel shows 1 - remaining / 30. */
  datatype Message = Code(code: Tpm2Totp.TotpCode) | Error(error: ClientError) | Timeout(remaining: int)

  /** What the poller does, in order: send a message or sleep one second. */
  datatype Action = Send(msg: Message) | Sleep

  /** One turn of the countdown loop: whether a button handler raised the
      refresh flag just before the flag is checked, and the clock then. */
  datatype Tick = Tick(raised: bool, now: nat)

  /** True when some tick has reached the window end, so the countdown
      stops within the supplied ticks. */
  predicate Expires(end: nat, ticks: seq<Tick>)
  {
    exists k :: 0 <= k < |ticks| && ticks[k].now >= end
  }

  /** The countdown: each turn swaps the flag to false and stops if it was
      set; otherwise sends the remaining seconds, stops if none remain, and
      sleeps. `flag` is the refresh flag before the first turn. */
  function CountdownSteps(end: nat, ticks: seq<Tick>, flag: bool): (steps: seq<Action>)
    decreases |ticks|
  {
    if ticks == [] || flag || ticks[0].raised then []
    else
      var remaining := end - ticks[0].now;
      if remaining <= 0 then [Send(Timeout(remaining))]
      else [Send(Timeout(remaining)), Sleep] + CountdownSteps(end, ticks[1..], false)
  }

  /** Turn j of the countdown sends the seconds remaining at tick j and then
      sleeps; nothing else is sent. */
  lemma {:induction false} CountdownTicks(end: nat, ticks: seq<Tick>, flag: bool)
    ensures var steps := CountdownSteps(end, ticks, flag);
      && |steps| <= 2 * |ticks|
      && forall j :: 0 <= j < |steps| ==>
           if j % 2 == 0 then steps[j] == Send(Timeout(end - ticks[j / 2].now)) else steps[j] == Sleep
    decreases |ticks|
  {
    var steps := CountdownSteps(end, ticks, flag);
    if !(ticks == [] || flag || ticks[0].raised) && end - ticks[0].now > 0 {
      var rest := CountdownSteps(end, ticks[1..], false);
      CountdownTicks(end, ticks[1..], false);
      assert steps == [Send(Timeout(end - ticks[0].now)), Sleep] + rest;
      forall j | 2 <= j < |steps|
        ensures if j % 2 == 0 then steps[j] == Send(Timeout(end - ticks[j / 2].now)) else steps[j] == Sleep
      {
        assert steps[j] == rest[j - 2];
        assert (j - 2) / 2 == j / 2 - 1 && (j - 2) % 2 == j % 2;
      }
    }
  }

  /** Every timeout but the last has time remaining; the countdown ends
      either on a tick with no time left or on a raised flag. */
  lemma {:induction false} CountdownStops(end: nat, ticks: seq<Tick>, flag: bool)
    requires Expires(end, ticks)
    ensures var steps := CountdownSteps(end, ticks, flag);
      && (forall j :: 0 <= j < |steps| - 1 && steps[j].Send? ==> steps[j].msg.Timeout? && steps[j].msg.remaining > 0)
      && (|steps| % 2 == 1 ==> steps[|steps| - 1].Send? && steps[|steps| - 1].msg.Timeout? && steps[|steps| - 1].msg.remaining <= 0)
      && (|steps| % 2 == 0 ==> |steps| / 2 < |ticks| && (ticks[|steps| / 2].raised || (|steps| == 0 && flag)))
    decreases |ticks|
  {
    var steps := CountdownSteps(end, ticks, flag);
    if !(flag || ticks[0].raised) && end - ticks[0].now > 0 {
      var rest := CountdownSteps(end, ticks[1..], false);
      var k :| 0 <= k < |ticks| && ticks[k].now >= end;
      assert ticks[1..][k - 1].now >= end;
      CountdownStops(end, ticks[1..], false);
      assert steps == [Send(Timeout(end - ticks[0].now)), Sleep] + rest;
      assert forall j :: 2 <= j < |steps| ==> steps[j] == rest[j - 2];
      if |steps| % 2 == 0 {
        assert ticks[|steps| / 2] == ticks[1..][|rest| / 2];
      }
    }
  }

  /** A refresh raised before the first check skips the countdown. */
  lemma CountdownRefreshed(end: nat, ticks: seq<Tick>, flag: bool)
    requires flag || (ticks != [] && ticks[0].raised)
    ensures CountdownSteps(end, ticks, flag) == []
  {
  }

  /** With a clock that advances one second per turn from `start` and no
      refresh, the panel is sent end - start, ..., 1, 0. */
  lemma {:induction false} CountdownIdealClock(end: nat, start: nat, ticks: seq<Tick>)
    requires start <= end && |ticks| > end - start
    requires forall j :: 0 <= j < |ticks| ==> ticks[j] == Tick(false, start + j)
    ensures var steps := CountdownSteps(end, ticks, false);
      && |steps| == 2 * (end - start) + 1
      && forall j :: 0 <= j <= end - start ==> steps[2 * j] == Send(Timeout(end - start - j))
    decreases end - start
  {
    var steps := CountdownSteps(end, ticks, false);
    if start < end {
      var rest := CountdownSteps(end, ticks[1..], false);
      CountdownIdealClock(end, start + 1, ticks[1..]);
      assert steps == [Send(Timeout(end - start)), Sleep] + rest;
      forall j | 1 <= j <= end - start
        ensures steps[2 * j] == Send(Timeout(end - start - j))
      {
        assert steps[2 * j] == rest[2 * (j - 1)];
      }
    }
  }

  /** One round of the poller's outer loop: the result of `tpm2_totp_show`,
      the clock when the countdown starts, and the countdown's ticks. */
  datatype Round = Round(result: Result<Tpm2Totp.TotpCode, ClientError>, start: nat, ticks: seq<Tick>)

  predicate RoundExpires(round: Round)
  {
    Expires(WindowEnd(round.start), round.ticks)
  }

  /** A code is sent as it is; an error is sent and followed by one second
      of sleep; either way the countdown to the end of the window follows. */
  function RoundSteps(round: Round, flag: bool): seq<Action>
  {
    (match round.result
     case Ok(code) => [Send(Code(code))]
     case Err(e) => [Send(Error(e)), Sleep])
    + CountdownSteps(WindowEnd(round.start), round.ticks, flag)
  }

  /** After an error the poller does not retry at once: it sends the error,
      sleeps, and then counts down to the end of the window. */
  lemma ErrorNoRetry(round: Round, flag: bool)
    requires round.result.Err?
    ensures var steps := RoundSteps(round, flag);
      && |steps| >= 2 && steps[0] == Send(Error(round.result.error)) && steps[1] == Sleep
      && forall j :: 1 <= j < |steps| ==> !(steps[j].Send? && (steps[j].msg.Code? || steps[j].msg.Error?))
  {
    var steps := RoundSteps(round, flag);
    var count := CountdownSteps(WindowEnd(round.start), round.ticks, flag);
    CountdownTicks(WindowEnd(round.start), round.ticks, flag);
    assert forall j :: 2 <= j < |steps| ==> steps[j] == count[j - 2];
  }

  /** Every round begins with the code or the error it fetched. */
  lemma RoundStartsWithResult(round: Round, flag: bool)
    ensures var steps := RoundSteps(round, flag);
      |steps| >= 1 && steps[0] == Send(if round.result.Ok? then Code(round.result.value) else Error(round.result.error))
  {
  }

  /** The rounds in order; the countdown leaves the flag cleared. */
  function RunSteps(rounds: seq<Round>, flag: bool): seq<Action>
  {
    if rounds == [] then [] else RoundSteps(rounds[0], flag) + RunSteps(rounds[1..], false)
  }

  /** The poller thread with the shared refresh flag and the messages and
      sleeps it has produced. */
  class Poller {
    var refresh: bool
    var log: seq<Action>

    constructor ()
      ensures !refresh && log == []
    {
      refresh := false;
      log := [];
    }

    /** What the init and reseal button handlers do to the poller after their
        call, whether it succeeded or failed: `refresh.swap(true)`. */
    method RaiseRefresh()
      modifies this
      ensures refresh && log == old(log)
    {
      refresh := true;
    }

    /** The inner `while`, until the window ends or a refresh is seen. */
    method Countdown(end: nat, ticks: seq<Tick>)
      requires Expires(end, ticks)
      modifies this
      ensures !refresh
      ensures log == old(log) + CountdownSteps(end, ticks, old(refresh))
    {
      var i := 0;
      while true
        invariant 0 <= i < |ticks|
        invariant forall j :: 0 <= j < i ==> ticks[j].now < end
        invariant i > 0 ==> !refresh
        invariant log + CountdownSteps(end, ticks[i..], refresh) == old(log) + CountdownSteps(end, ticks, old(refresh))
        decreases |ticks| - i
      {
        if ticks[i].raised {
          RaiseRefresh();
        }
        var seen := refresh;
        refresh := false;
        if seen {
          break;
        }
        var remaining := end - ticks[i].now;
        log := log + [Send(Timeout(remaining))];
        if remaining <= 0 {
          break;
        }
        log := log + [Sleep];
        assert ticks[i..][1..] == ticks[i + 1..];
        var k :| 0 <= k < |ticks| && ticks[k].now >= end;
        assert k > i;
        i := i + 1;
      }
    }

    /** One pass of the outer `loop`: show, send, and wait for the window. */
    method PollRound(round: Round)
      requires RoundExpires(round)
      modifies this
      ensures !refresh
      ensures log == old(log) + RoundSteps(round, old(refresh))
    {
      match round.result {
        case Ok(code) =>
          log := log + [Send(Code(code))];
        case Err(e) =>
          log := log + [Send(Error(e))];
          log := log + [Sleep];
      }
      var end := WindowEnd(round.start);
      Countdown(end, round.ticks);
    }

    /** The outer `loop`, over the rounds supplied. */
    method Run(rounds: seq<Round>)
      requires forall i :: 0 <= i < |rounds| ==> RoundExpires(rounds[i])
      modifies this
      ensures log == old(log) + RunSteps(rounds, old(refresh))
    {
      for i := 0 to |rounds|
        invariant log + RunSteps(rounds[i..], refresh) == old(log) + RunSteps(rounds, old(refresh))
        invariant i > 0 ==> !refresh
      {
        assert rounds[i..][1..] == rounds[i + 1..];
        PollRound(rounds[i]);
      }
    }
  }

  /** A label's content: literal text, or a message of the localisation
      catalogue by its identifier. */
  datatype Label = Text(text: string) | Localized(id: string)

  /** The panel's TPM row: the label, whether the progress bar and the two
      buttons are visible, and the last remaining time shown by the bar. */
  datatype View = View(caption: Label, bar: bool, initButton: bool, resealButton: bool, remaining: Option<int>)

  /** The row as built: empty label, bar and buttons hidden. */
  const INITIAL_VIEW := View(Text(""), false, false, false, None)

  /** `format!("{:06}", code.0)`. */
  function CodeText(code: Tpm2Totp.TotpCode): string
  {
    ZeroPad(Decimal(code.code), 6)
  }

  /** The `receiver.attach` handler. */
  function Dispatch(v: View, m: Message): View
  {
    match m
    case Code(code) => View(Text(CodeText(code)), true, false, false, v.remaining)
    case Error(error) =>
      if error == Totp(Tpm2Totp.SecretNotFound) then
        View(Localized("tpm2-totp-init"), false, true, false, v.remaining)
      else if error == Totp(Tpm2Totp.SystemStateChanged) then
        View(Localized("tpm2-totp-reseal"), false, false, true, v.remaining)
      else View(Text(ErrorText(error)), false, false, false, v.remaining)
    case Timeout(remaining) => v.(remaining := Some(remaining))
  }

  /** A code is shown as at least six decimal digits that read back as the
      code, with the progress bar and without buttons. */
  lemma DispatchCode(v: View, code: Tpm2Totp.TotpCode)
    ensures var w := Dispatch(v, Code(code));
      && w.caption.Text? && |w.caption.text| >= 6
      && (forall i :: 0 <= i < |w.caption.text| ==> IsDigitChar(w.caption.text[i], 10))
      && Parse(w.caption.text, 10) == code.code
      && w.bar && !w.initButton && !w.resealButton
  {
    ParseZeroPad(code.code, 6);
  }

  /** An error always hides the bar; the init button appears exactly for a
      missing secret, the reseal button exactly for a changed system state,
      and any other error is shown as its text. */
  lemma DispatchError(v: View, error: ClientError)
    ensures var w := Dispatch(v, Error(error));
      && !w.bar
      && (w.initButton <==> error == Totp(Tpm2Totp.SecretNotFound))
      && (w.resealButton <==> error == Totp(Tpm2Totp.SystemStateChanged))
      && (!w.initButton && !w.resealButton ==> w.caption == Text(ErrorText(error)))
      && w.remaining == v.remaining
  {
  }

  /** A timeout only moves the bar. */
  lemma DispatchTimeout(v: View, remaining: int)
    ensures Dispatch(v, Timeout(remaining)) == v.(remaining := Some(remaining))
  {
  }

  /** At most one of the bar and the two buttons is visible. */
  predicate OneControl(v: View)
  {
    (v.bar ==> !v.initButton && !v.resealButton) && !(v.initButton && v.resealButton)
  }

  /** The panel after each of the messages in turn. */
  function DispatchAll(v: View, ms: seq<Message>): View
    decreases |ms|
  {
    if ms == [] then v else DispatchAll(Dispatch(v, ms[0]), ms[1..])
  }

  /** Whatever the poller sends, the row never shows two of the bar and the
      buttons at once. */
  lemma {:induction false} OneControlAlways(ms: seq<Message>, v: View)
    requires OneControl(v)
    ensures OneControl(DispatchAll(v, ms))
  {
    if ms != [] {
      OneControlAlways(ms[1..], Dispatch(v, ms[0]));
    }
  }

  lemma InitialOneControl()
    ensures OneControl(INITIAL_VIEW)
    ensures forall ms :: OneControl(DispatchAll(INITIAL_VIEW, ms))
  {
    forall ms {
      OneControlAlways(ms, INITIAL_VIEW);
    }
  }

  /** One `dialog.run()`: whether the response was Ok, and the two entries'
      text at that moment. */
  datatype DialogRun = DialogRun(ok: bool, entry: string, confirmEntry: string)

  /** The dialog closes on any response but Ok, or on Ok when no
      confirmation is asked or the two entries agree. */
  predicate Closes(confirm: bool, run: DialogRun)
  {
    !run.ok || !confirm || run.entry == run.confirmEntry
  }

  /** `tpm_password_dialog`: run the dialog until it closes. The entries are
      cleared before each run, so each run's text is supplied afresh. */
  method PasswordDialog(confirm: bool, runs: seq<DialogRun>) returns (res: Option<string>, used: nat)
    requires exists k :: 0 <= k < |runs| && Closes(confirm, runs[k])
    ensures used < |runs| && Closes(confirm, runs[used])
    ensures forall j :: 0 <= j < used ==> !Closes(confirm, runs[j])
    ensures res.None? <==> !runs[used].ok
    ensures res.Some? ==> res.value == runs[used].entry
    ensures res.Some? && confirm ==> res.value == runs[used].confirmEntry
  {
    var i := 0;
    while true
      invariant 0 <= i < |runs|
      invariant forall j :: 0 <= j < i ==> !Closes(confirm, runs[j])
      decreases |runs| - i
    {
      var run := runs[i];
      if !run.ok {
        return None, i;
      }
      if !confirm || run.entry == run.confirmEntry {
        return Some(run.entry), i;
      }
      var k :| 0 <= k < |runs| && Closes(confirm, runs[k]);
      assert k > i;
      i := i + 1;
    }
  }

  /** An EFI variable flag: the file was read, and it has a fifth byte (the
      first after the 4 attribute bytes) that is nonzero. */
  function EfiFlag(file: Option<seq<byte>>): (flag: bool)
  {
    match file
    case None => false
    case Some(bytes) => if |bytes| > 4 then bytes[4] > 0 else false
  }

  lemma EfiFlagMeaning(file: Option<seq<byte>>)
    ensures EfiFlag(file) <==> file.Some? && |file.value| > 4 && file.value[4] != 0
  {
  }

  /** The secure boot label from the SecureBoot and SetupMode flags. */
  function SecureBootLabel(secureBoot: bool, setupMode: bool): Label
  {
    if secureBoot then
      if setupMode then Localized("setup-mode") else Localized("enabled")
    else Localized("disabled")
  }

  /** Setup mode only with secure boot on; disabled whenever secure boot is
      off, whatever setup mode says. */
  lemma SecureBootStates(secureBoot: bool, setupMode: bool)
    ensures SecureBootLabel(secureBoot, setupMode) == Localized("setup-mode") <==> secureBoot && setupMode
    ensures SecureBootLabel(secureBoot, setupMode) == Localized("enabled") <==> secureBoot && !setupMode
    ensures SecureBootLabel(secureBoot, setupMode) == Localized("disabled") <==> !secureBoot
  {
  }

  const URL_PREFIX := "otpauth://totp/"
  const SECRET_PARAM := "?secret="

  /** The account name: the host name and " TPM2-TOTP", or "TPM2-TOTP"
      alone when the host name cannot be read. */
  function Description(hostname: Option<string>): string
  {
    match hostname
    case Some(h) => h + " TPM2-TOTP"
    case None => "TPM2-TOTP"
  }

  /** `otpauth_url`: the key URI an authenticator app enrolls. */
  function OtpAuthUrl(hostname: Option<string>, secret: seq<byte>): string
  {
    URL_PREFIX + Description(hostname) + SECRET_PARAM + Base32.Encode(secret)
  }

  /** The URL starts with the TOTP scheme and label, and what follows
      `?secret=` is unpadded base 32 that decodes to exactly the secret. */
  lemma OtpAuthUrlSecret(hostname: Option<string>, secret: seq<byte>)
    ensures var url := OtpAuthUrl(hostname, secret);
      var k := |URL_PREFIX| + |Description(hostname)| + |SECRET_PARAM|;
      && url[..|URL_PREFIX|] == "otpauth://totp/"
      && url[|URL_PREFIX|..k] == Description(hostname) + "?secret="
      && Base32.Decode(url[k..]) == Some(secret)
      && forall i :: k <= i < |url| ==> url[i] != '='
  {
    var url := OtpAuthUrl(hostname, secret);
    var k := |URL_PREFIX| + |Description(hostname)| + |SECRET_PARAM|;
    assert url[k..] == Base32.Encode(secret);
    Base32.DecodeEncode(secret);
    Base32.EncodeShape(secret);
  }

  /** The label ends in " TPM2-TOTP" after the host name, or is "TPM2-TOTP". */
  lemma DescriptionCases(hostname: Option<string>)
    ensures hostname.Some? ==> Description(hostname) == hostname.value + " TPM2-TOTP"
    ensures hostname.None? ==> Description(hostname) == "TPM2-TOTP"
    ensures var d := Description(hostname); |d| >= 9 && d[|d| - 9..] == "TPM2-TOTP"
  {
  }

  /** A missing secret, reported by the daemon over D-Bus and decoded by the
      client, assuming it decodes with `TryFrom` (see Left out), puts the
      init button on the panel. */
  lemma MissingSecretOffersInit(v: View)
    ensures var decoded := Dbus.TryFromDbus(Dbus.ToDbus(Tpm2Totp.SecretNotFound));
      && decoded == Ok(Tpm2Totp.SecretNotFound)
      && Dispatch(v, Error(Totp(decoded.value))).initButton
  {
    Dbus.RoundTrip(Tpm2Totp.SecretNotFound);
  }
}
