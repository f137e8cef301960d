/** The bridge of src/dbus.rs between the engine's errors and D-Bus errors:
    every `TotpError` travels as a D-Bus error whose name identifies the
    variant and whose message is the error's Display text, and the client
    turns such an error back into the `TotpError` it came from. */
module Dbus {
  import opened Wrappers
  import opened Tpm2Totp

  const DBUS_DEST := "com.system76.PopSec"
  const DBUS_IFACE := DBUS_DEST
  const DBUS_PATH := "/com/system76/PopSec"
  const METHOD_TPM2_TOTP_SHOW := "Tpm2TotpShow"

  /** The namespace every error name of the daemon lives in. */
  const ERROR_PREFIX := "com.system76.PopSec.Error."

  /** `dbus::Error` as the bridge sees it: an optional name and an optional
      message. */
  datatype DbusError = DbusError(name: Option<string>, message: Option<string>)

  /** `dbus::MethodErr`: the error name and description a method handler
      replies with. */
  datatype MethodErr = MethodErr(errorName: string, description: string)

  /** What follows the namespace in each variant's name. */
  function Suffix(e: TotpError): string
  {
    match e
    case NoPasswordProvided => "NoPasswordProvided"
    case SecretHasNoPassword => "SecretHasNoPassword"
    case SecretAlreadyExists => "SecretAlreadyExists"
    case SecretNotFound => "SecretNotFound"
    case SystemStateChanged => "SystemStateChanged"
    case WrongPassword => "WrongPassword"
    case Lockout => "Lockout"
    case Other(_) => "Other"
  }

  /** The D-Bus error name of each variant, "com.system76.PopSec.Error."
      followed by the variant's name. */
  function ErrorName(e: TotpError): string
  {
    ERROR_PREFIX + Suffix(e)
  }

  /** `From<TotpError> for dbus::Error`: `Error::new_custom(name, &err.to_string())`.
      The error travels under a name of the daemon's namespace, and the
      client's decoding gives back exactly the error it came from. */
  function ToDbus(e: TotpError): (d: DbusError)
    ensures d.name.Some? && |d.name.value| > |ERROR_PREFIX|
    ensures d.name.value[..|ERROR_PREFIX|] == ERROR_PREFIX
    ensures TryFromDbus(d) == Ok(e)
  {
    ErrorNamePrefix(e);
    DecodeNamed(e, Some(Message(e)));
    DbusError(Some(ErrorName(e)), Some(Message(e)))
  }

  /** The namespace and a variant's name can be cut apart again. */
  lemma SplitName(suffix: string)
    ensures |ERROR_PREFIX + suffix| >= |ERROR_PREFIX|
    ensures (ERROR_PREFIX + suffix)[..|ERROR_PREFIX|] == ERROR_PREFIX
    ensures (ERROR_PREFIX + suffix)[|ERROR_PREFIX|..] == suffix
  {
  }

  /** The name of a variant decodes to that variant whatever the message;
      `Other` takes the message, or the empty string without one. */
  lemma DecodeNamed(e: TotpError, m: Option<string>)
    ensures TryFromDbus(DbusError(Some(ErrorName(e)), m))
         == Ok(if e.Other? then Other(if m.Some? then m.value else "") else e)
  {
    SplitName(Suffix(e));
  }

  /** dbus-rs's `From<dbus::Error> for MethodErr`: the name and the message
      are carried over. What the library puts in place of a missing part is
      not modelled; the values used here are placeholders. */
  function MethodErrOf(d: DbusError): (m: MethodErr)
    ensures d.name.Some? ==> m.errorName == d.name.value
    ensures d.message.Some? ==> m.description == d.message.value
  {
    MethodErr(
      if d.name.Some? then d.name.value else "org.freedesktop.DBus.Error.Failed",
      if d.message.Some? then d.message.value else "")
  }

  /** `From<TotpError> for MethodErr`, through the `dbus::Error` conversion. */
  function ToMethodErr(e: TotpError): (m: MethodErr)
    ensures m.errorName == ErrorName(e) && m.description == Message(e)
  {
    MethodErrOf(ToDbus(e))
  }

  /** `TryFrom<dbus::Error> for TotpError`: a known name gives its variant
      (`Other` taking the message, or the empty string without one); no name
      or any other name gives the D-Bus error back unchanged. */
  function TryFromDbus(d: DbusError): Result<TotpError, DbusError>
  {
    match d.name
    case None => Err(d)
    case Some(name) =>
      // `name` is one of the eight literals exactly when it is the
      // namespace followed by one of the eight variant names.
      if |name| < |ERROR_PREFIX| || name[..|ERROR_PREFIX|] != ERROR_PREFIX then Err(d)
      else
        match name[|ERROR_PREFIX|..]
        case "NoPasswordProvided" => Ok(NoPasswordProvided)
        case "SecretHasNoPassword" => Ok(SecretHasNoPassword)
        case "SecretAlreadyExists" => Ok(SecretAlreadyExists)
        case "SecretNotFound" => Ok(SecretNotFound)
        case "SystemStateChanged" => Ok(SystemStateChanged)
        case "WrongPassword" => Ok(WrongPassword)
        case "Lockout" => Ok(Lockout)
        case "Other" => Ok(Other(if d.message.Some? then d.message.value else ""))
        case _ => Err(d)
  }

  /** The daemon is addressed with one name for both bus and interface. */
  lemma Endpoint()
    ensures DBUS_IFACE == DBUS_DEST == "com.system76.PopSec"
    ensures DBUS_PATH == "/com/system76/PopSec" && METHOD_TPM2_TOTP_SHOW == "Tpm2TotpShow"
  {
  }

  /** Every name is the prefix followed by a non-empty variant name. */
  lemma ErrorNamePrefix(e: TotpError)
    ensures |ErrorName(e)| > |ERROR_PREFIX|
    ensures ErrorName(e)[..|ERROR_PREFIX|] == ERROR_PREFIX
  {
  }

  /** Names tell the variants apart: two errors share a name exactly when
      they are the same variant (all `Other` errors share one). */
  lemma ErrorNameInjective(e1: TotpError, e2: TotpError)
    ensures ErrorName(e1) == ErrorName(e2) <==> (e1 == e2 || (e1.Other? && e2.Other?))
  {
    SplitName(Suffix(e1));
    SplitName(Suffix(e2));
  }

  /** The message of `Other(s)` is `s` itself, so nothing is added to it. */
  lemma OtherMessage(s: string)
    ensures ToDbus(Other(s)).message == Some(s)
  {
  }

  /** Every error survives the trip over the bus, `Other`'s text included. */
  lemma RoundTrip(e: TotpError)
    ensures TryFromDbus(ToDbus(e)) == Ok(e)
  {
  }

  /** Decoding succeeds exactly on the eight names, and a decoded error
      carries the name it was decoded from; everything else comes back as
      the same D-Bus error. */
  lemma TryFromNames(d: DbusError)
    ensures TryFromDbus(d).Ok? <==> d.name.Some? && exists e :: ErrorName(e) == d.name.value
    ensures TryFromDbus(d).Ok? ==> Some(ErrorName(TryFromDbus(d).value)) == d.name
    ensures TryFromDbus(d).Err? ==> TryFromDbus(d).error == d
  {
    if d.name.Some? && exists e :: ErrorName(e) == d.name.value {
      var e :| ErrorName(e) == d.name.value;
      SplitName(Suffix(e));
    }
    if TryFromDbus(d).Ok? {
      ErrorNameOfDecoded(d);
    }
  }

  lemma ErrorNameOfDecoded(d: DbusError)
    requires TryFromDbus(d).Ok?
    ensures d.name.Some? && ErrorName(TryFromDbus(d).value) == d.name.value
  {
    var name := d.name.value;
    assert name == name[..|ERROR_PREFIX|] + name[|ERROR_PREFIX|..];
  }

  /** `...Error.Other` without a message decodes to `Other("")`. */
  lemma OtherWithoutMessage(d: DbusError)
    requires d.name == Some("com.system76.PopSec.Error.Other") && d.message.None?
    ensures TryFromDbus(d) == Ok(Other(""))
  {
  }

  /** A daemon reply and its `dbus::Error` carry the same name and message. */
  lemma MethodErrAgrees(e: TotpError)
    ensures ToMethodErr(e).errorName == ToDbus(e).name.value
    ensures ToMethodErr(e).description == ToDbus(e).message.value
  {
  }
}
