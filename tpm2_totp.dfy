/** The sealing engine of src/tpm2_totp.rs: the error taxonomy, the decoding of
    the tpm2-totp library's status codes, the fixed NVRAM slot and PCR policy,
    and the `show` and `reseal` sequences over the library's five primitives.

    The TPM and the tpm2-totp C library are modelled by the class `Device`: an
    NV storage map and a trace of the primitive calls made on it. Each
    primitive returns a status the model does not predict, except for two
    statuses the model assumes of the C library: an absent index gives
    0x18B, and storing to an index already defined gives 0x14C. */
module Tpm2Totp {
  import opened Wrappers
  import opened Numerals

  /** A C `int`. */
  type CInt = x: int | -0x8000_0000 <= x < 0x8000_0000

  type u32 = x: int | 0 <= x < 0x1_0000_0000

  type u64 = x: int | 0 <= x < 0x1_0000_0000_0000_0000

  datatype TotpError =
    | NoPasswordProvided
    | SecretHasNoPassword
    | SecretAlreadyExists
    | SecretNotFound
    | SystemStateChanged
    | WrongPassword
    | Lockout
    | Other(detail: string)

  /** The Display text of each error. */
  function Message(e: TotpError): string
  {
    match e
    case NoPasswordProvided => "No recovery password for the TOTP secret was given"
    case SecretHasNoPassword => "The TOTP secret has not been stored with a recovery password and thus cannot be retrieved"
    case SecretAlreadyExists => "A TOTP secret is already stored"
    case SecretNotFound => "No TOTP secret is currently stored"
    case SystemStateChanged => "The system state has changed, no TOTP could be calculated"
    case WrongPassword => "Wrong recovery password for the TOTP secret"
    case Lockout => "The password has been entered wrongly too many times and the TPM is in lockout mode"
    case Other(s) => s
  }

  datatype TotpCode = TotpCode(code: u64)

  // Response codes of the TPM 2.0 Library Specification, Part 2, section 6.6
  // (TPM_RC), as the TSS headers define them.
  const TPM2_RC_VER1: bv32 := 0x100
  const TPM2_RC_FMT1: bv32 := 0x080
  const TPM2_RC_WARN: bv32 := 0x900
  const TPM2_RC_NV_DEFINED: bv32 := TPM2_RC_VER1 + 0x04C
  const TPM2_RC_HANDLE: bv32 := TPM2_RC_FMT1 + 0x00B
  const TPM2_RC_POLICY_FAIL: bv32 := TPM2_RC_FMT1 + 0x01D
  const TPM2_RC_AUTH_FAIL: bv32 := TPM2_RC_FMT1 + 0x00E
  const TPM2_RC_LOCKOUT: bv32 := TPM2_RC_WARN + 0x021
  const TPM2_RC_1: bv32 := 0x100
  const TPM2_RC_9: bv32 := 0x900

  // The seven statuses the engine recognises.
  const RC_NO_PASSWORD_PROVIDED: CInt := -10
  const RC_SECRET_HAS_NO_PASSWORD: CInt := -20
  const RC_SECRET_ALREADY_EXISTS: CInt := TPM2_RC_NV_DEFINED as int
  const RC_SECRET_NOT_FOUND: CInt := (TPM2_RC_HANDLE | TPM2_RC_1) as int
  const RC_SYSTEM_STATE_CHANGED: CInt := (TPM2_RC_POLICY_FAIL | TPM2_RC_9) as int
  const RC_WRONG_PASSWORD: CInt := (TPM2_RC_AUTH_FAIL | TPM2_RC_9) as int
  const RC_LOCKOUT: CInt := TPM2_RC_LOCKOUT as int

  /** The 32-bit pattern of a C int, which is what `{:x}` prints for it. */
  function Bits32(rc: CInt): (u: nat)
    ensures u < 0x1_0000_0000
  {
    if rc < 0 then rc + 0x1_0000_0000 else rc
  }

  /** The C int a 32-bit pattern stands for. */
  function Signed32(u: nat): int
  {
    if u >= 0x8000_0000 then u - 0x1_0000_0000 else u
  }

  const UNKNOWN_PREFIX := "unknown (0x"

  /** `TotpError::from_rc`: exact comparison against the seven statuses; any
      other status becomes `Other` with its hex pattern. */
  function FromRc(rc: CInt): TotpError
  {
    if rc == RC_NO_PASSWORD_PROVIDED then NoPasswordProvided
    else if rc == RC_SECRET_HAS_NO_PASSWORD then SecretHasNoPassword
    else if rc == RC_SECRET_ALREADY_EXISTS then SecretAlreadyExists
    else if rc == RC_SECRET_NOT_FOUND then SecretNotFound
    else if rc == RC_SYSTEM_STATE_CHANGED then SystemStateChanged
    else if rc == RC_WRONG_PASSWORD then WrongPassword
    else if rc == RC_LOCKOUT then Lockout
    else Other(UNKNOWN_PREFIX + Hex(Bits32(rc)))
  }

  /** The status each named error is decoded from; None for `Other`. */
  function StatusOf(e: TotpError): Option<CInt>
  {
    match e
    case NoPasswordProvided => Some(RC_NO_PASSWORD_PROVIDED)
    case SecretHasNoPassword => Some(RC_SECRET_HAS_NO_PASSWORD)
    case SecretAlreadyExists => Some(RC_SECRET_ALREADY_EXISTS)
    case SecretNotFound => Some(RC_SECRET_NOT_FOUND)
    case SystemStateChanged => Some(RC_SYSTEM_STATE_CHANGED)
    case WrongPassword => Some(RC_WRONG_PASSWORD)
    case Lockout => Some(RC_LOCKOUT)
    case Other(_) => None
  }

  /** The seven statuses have the values of the TPM specification and the
      library, and are pairwise distinct. */
  lemma StatusValues()
    ensures RC_SECRET_ALREADY_EXISTS == 0x14C && RC_SECRET_NOT_FOUND == 0x18B
    ensures RC_SYSTEM_STATE_CHANGED == 0x99D && RC_WRONG_PASSWORD == 0x98E && RC_LOCKOUT == 0x921
    ensures forall e1, e2 :: StatusOf(e1).Some? && StatusOf(e1) == StatusOf(e2) ==> e1 == e2
  {
  }

  /** Each named error comes from exactly one status: decoding its status
      gives it back, and a status that decodes to a named error is that
      error's status. */
  lemma FromRcNamed(rc: CInt, e: TotpError)
    ensures StatusOf(e) == Some(rc) ==> FromRc(rc) == e
    ensures !FromRc(rc).Other? ==> StatusOf(FromRc(rc)) == Some(rc)
  {
  }

  /** Any other status becomes `Other("unknown (0x<hex>")`: lower-case hex
      of the 32-bit pattern with no leading zeros, no closing parenthesis,
      and the status can be read back from the text. */
  lemma FromRcUnknown(rc: CInt)
    ensures FromRc(rc).Other? <==> (forall e :: StatusOf(e) != Some(rc))
    ensures FromRc(rc).Other? ==>
      var d := FromRc(rc).detail;
      var digits := d[|UNKNOWN_PREFIX|..];
      && d[..|UNKNOWN_PREFIX|] == UNKNOWN_PREFIX
      && |digits| >= 1
      && (forall i :: 0 <= i < |digits| ==> IsDigitChar(digits[i], 16))
      && Signed32(Parse(digits, 16)) == rc
      && d[|d| - 1] != ')'
  {
    if FromRc(rc).Other? {
      var d := FromRc(rc).detail;
      ParseFormat(Bits32(rc), 16);
      assert d[|UNKNOWN_PREFIX|..] == Hex(Bits32(rc));
    } else {
      FromRcNamed(rc, FromRc(rc));
    }
  }

  // Tpm2Totp::PCRS: PCR 0 (firmware), 2 (option ROMs) and 7 (secure boot state).
  const PCRS: bv32 := (1 << 0) | (1 << 2) | (1 << 7)
  // Tpm2Totp::BANKS: bank 0 (SHA-1) and bank 1 (SHA-256).
  const BANKS: bv32 := (1 << 0) | (1 << 1)
  // Tpm2Totp::NVRAM_INDEX, the default index of the tpm2-totp command line.
  const NVRAM_INDEX: u32 := 0x018094AF

  lemma PolicyMasks()
    ensures PCRS == 0x85 && BANKS == 0x3
    ensures PCRS & (1 << 0) != 0 && PCRS & (1 << 2) != 0 && PCRS & (1 << 7) != 0
  {
  }

  /** The width in bytes of a character in UTF-8. */
  function Utf8Width(c: char): (w: nat)
    ensures 1 <= w <= 4
  {
    if (c as int) < 0x80 then 1 else if (c as int) < 0x800 then 2 else if (c as int) < 0x10000 then 3 else 4
  }

  function Utf8Length(s: string): nat
  {
    if s == [] then 0 else Utf8Width(s[0]) + Utf8Length(s[1..])
  }

  predicate HasNul(s: string)
  {
    exists i :: 0 <= i < |s| && s[i] == '\0'
  }

  /** The index of the first NUL character. */
  function FirstNul(s: string): (i: nat)
    requires HasNul(s)
    ensures i < |s| && s[i] == '\0' && forall j :: 0 <= j < i ==> s[j] != '\0'
  {
    if s[0] == '\0' then 0
    else
      assert HasNul(s[1..]) by {
        var k :| 0 <= k < |s| && s[k] == '\0';
        assert s[1..][k - 1] == '\0';
      }
      1 + FirstNul(s[1..])
  }

  /** The error `reseal` returns when the password cannot become a C string:
      the Display of Rust's `NulError`, which names the byte offset of the
      first NUL in the UTF-8 text. */
  function NulMessage(password: string): string
    requires HasNul(password)
  {
    "failed to convert password to C string: nul byte found in provided data at position: "
      + Decimal(Utf8Length(password[..FirstNul(password)]))
  }

  /** One call of a tpm2-totp primitive, with its arguments and its status. */
  datatype Step =
    | LoadKeyNv(nvIndex: u32, rc: CInt)
    | Calculate(keyBlob: seq<byte>, rc: CInt, totp: u64)
    | Reseal(keyBlob: seq<byte>, password: string, pcrs: bv32, banks: bv32, rc: CInt, newBlob: seq<byte>)
    | DeleteKeyNv(nvIndex: u32, rc: CInt)
    | StoreKeyNv(newBlob: seq<byte>, nvIndex: u32, rc: CInt)

  /** The TPM's NV storage: the blob held at each defined index. */
  type Storage = map<u32, seq<byte>>

  /** What a storage map holds at the secret's slot. */
  function SlotOf(nv: Storage): Option<seq<byte>>
  {
    if NVRAM_INDEX in nv then Some(nv[NVRAM_INDEX]) else None
  }

  /** The TPM behind a TCTI context, with the tpm2-totp library's primitives. */
  class Device {
    var nv: Storage
    var trace: seq<Step>

    constructor (nv: Storage)
      ensures this.nv == nv && trace == []
    {
      this.nv := nv;
      trace := [];
    }

    /** tpm2totp_loadKey_nv: read the key blob stored at an index. */
    method LoadKeyNv(index: u32) returns (rc: CInt, keyBlob: seq<byte>)
      modifies this
      ensures nv == old(nv)
      ensures trace == old(trace) + [Step.LoadKeyNv(index, rc)]
      ensures index !in nv ==> rc == RC_SECRET_NOT_FOUND
      ensures rc == 0 ==> index in nv && keyBlob == nv[index]
    {
      if index !in nv {
        rc, keyBlob := RC_SECRET_NOT_FOUND, [];
      } else {
        rc :| true;
        keyBlob := if rc == 0 then nv[index] else [];
      }
      trace := trace + [Step.LoadKeyNv(index, rc)];
    }

    /** tpm2totp_calculate: the code for the current time, if the PCRs still
        satisfy the blob's policy. */
    method Calculate(keyBlob: seq<byte>) returns (rc: CInt, totp: u64)
      modifies this
      ensures nv == old(nv)
      ensures trace == old(trace) + [Step.Calculate(keyBlob, rc, totp)]
    {
      rc :| true;
      totp :| true;
      trace := trace + [Step.Calculate(keyBlob, rc, totp)];
    }

    /** tpm2totp_reseal: a new blob for the same secret under the given policy. */
    method Reseal(keyBlob: seq<byte>, password: string, pcrs: bv32, banks: bv32)
      returns (rc: CInt, newBlob: seq<byte>)
      modifies this
      ensures nv == old(nv)
      ensures trace == old(trace) + [Step.Reseal(keyBlob, password, pcrs, banks, rc, newBlob)]
    {
      rc :| true;
      newBlob :| true;
      trace := trace + [Step.Reseal(keyBlob, password, pcrs, banks, rc, newBlob)];
    }

    /** tpm2totp_deleteKey_nv: undefine an index; a failed call changes nothing. */
    method DeleteKeyNv(index: u32) returns (rc: CInt)
      modifies this
      ensures trace == old(trace) + [Step.DeleteKeyNv(index, rc)]
      ensures old(index !in nv) ==> rc == RC_SECRET_NOT_FOUND
      ensures nv == if rc == 0 then old(nv) - {index} else old(nv)
    {
      if index !in nv {
        rc := RC_SECRET_NOT_FOUND;
      } else {
        rc :| true;
        if rc == 0 {
          nv := nv - {index};
        }
      }
      trace := trace + [Step.DeleteKeyNv(index, rc)];
    }

    /** tpm2totp_storeKey_nv: define an index holding a blob; an index that
        is already defined makes it fail. */
    method StoreKeyNv(newBlob: seq<byte>, index: u32) returns (rc: CInt)
      modifies this
      ensures trace == old(trace) + [Step.StoreKeyNv(newBlob, index, rc)]
      ensures old(index in nv) ==> rc == RC_SECRET_ALREADY_EXISTS
      ensures nv == if rc == 0 then old(nv)[index := newBlob] else old(nv)
    {
      if index in nv {
        rc := RC_SECRET_ALREADY_EXISTS;
      } else {
        rc :| true;
        if rc == 0 {
          nv := nv[index := newBlob];
        }
      }
      trace := trace + [Step.StoreKeyNv(newBlob, index, rc)];
    }
  }

  /** The calls one `show` makes and what it returns, given the storage
      before the call. */
  predicate ShowOutcome(nv: Storage, t: seq<Step>, r: Result<TotpCode, TotpError>)
  {
    && 1 <= |t| <= 2
    && t[0] == LoadKeyNv(NVRAM_INDEX, t[0].rc)
    && (NVRAM_INDEX !in nv ==> t[0].rc == RC_SECRET_NOT_FOUND)
    && (t[0].rc != 0 ==> |t| == 1 && r == Err(FromRc(t[0].rc)))
    && (t[0].rc == 0 ==>
          && |t| == 2 && NVRAM_INDEX in nv
          && t[1].Calculate? && t[1].keyBlob == nv[NVRAM_INDEX]
          && r == if t[1].rc == 0 then Ok(TotpCode(t[1].totp)) else Err(FromRc(t[1].rc)))
  }

  /** The calls one `reseal` makes, what it returns and the storage after it,
      given the storage before the call. */
  predicate ResealOutcome(nv: Storage, password: string, t: seq<Step>,
                          r: Result<(), TotpError>, nv': Storage)
  {
    && 1 <= |t| <= 4
    && t[0] == LoadKeyNv(NVRAM_INDEX, t[0].rc)
    && (NVRAM_INDEX !in nv ==> t[0].rc == RC_SECRET_NOT_FOUND)
    && (t[0].rc != 0 ==> |t| == 1 && r == Err(FromRc(t[0].rc)) && nv' == nv)
    && (t[0].rc == 0 && HasNul(password) ==>
          |t| == 1 && r == Err(Other(NulMessage(password))) && nv' == nv)
    && (t[0].rc == 0 && !HasNul(password) ==>
          && |t| >= 2 && NVRAM_INDEX in nv
          && t[1].Reseal? && t[1].keyBlob == nv[NVRAM_INDEX] && t[1].password == password
          && t[1].pcrs == PCRS && t[1].banks == BANKS
          && (t[1].rc != 0 ==> |t| == 2 && r == Err(FromRc(t[1].rc)) && nv' == nv)
          && (t[1].rc == 0 ==>
                && |t| >= 3 && t[2] == DeleteKeyNv(NVRAM_INDEX, t[2].rc)
                && (t[2].rc != 0 ==> |t| == 3 && r == Err(FromRc(t[2].rc)) && nv' == nv)
                && (t[2].rc == 0 ==>
                      && |t| == 4 && t[3] == StoreKeyNv(t[1].newBlob, NVRAM_INDEX, t[3].rc)
                      && (t[3].rc != 0 ==> r == Err(FromRc(t[3].rc)) && nv' == nv - {NVRAM_INDEX})
                      && (t[3].rc == 0 ==> r == Ok(()) && nv' == nv[NVRAM_INDEX := t[1].newBlob]))))
  }

  /** The kind of primitive a step calls. */
  datatype Primitive = Load | Calc | ResealBlob | Delete | Store

  function KindOf(s: Step): Primitive
  {
    match s
    case LoadKeyNv(_, _) => Load
    case Calculate(_, _, _) => Calc
    case Reseal(_, _, _, _, _, _) => ResealBlob
    case DeleteKeyNv(_, _) => Delete
    case StoreKeyNv(_, _, _) => Store
  }

  function Kinds(t: seq<Step>): (ks: seq<Primitive>)
    ensures |ks| == |t| && forall i :: 0 <= i < |t| ==> ks[i] == KindOf(t[i])
  {
    if t == [] then [] else [KindOf(t[0])] + Kinds(t[1..])
  }

  lemma KindsPrefix(t: seq<Step>, ks: seq<Primitive>)
    requires |t| <= |ks| && forall i :: 0 <= i < |t| ==> KindOf(t[i]) == ks[i]
    ensures Kinds(t) == ks[..|t|]
  {
  }

  /** `show` only reads: it loads, then calculates, and never reseals,
      deletes or stores. */
  lemma ShowReadOnly(nv: Storage, t: seq<Step>, r: Result<TotpCode, TotpError>)
    requires ShowOutcome(nv, t, r)
    ensures Kinds(t) == [Load, Calc][..|t|]
  {
    KindsPrefix(t, [Load, Calc]);
  }

  /** An empty slot gives `SecretNotFound`, and calculate is never called. */
  lemma ShowEmptySlot(nv: Storage, t: seq<Step>, r: Result<TotpCode, TotpError>)
    requires ShowOutcome(nv, t, r)
    ensures NVRAM_INDEX !in nv ==> r == Err(SecretNotFound) && |t| == 1
  {
  }

  /** A code comes back exactly when both calls succeed; otherwise the error
      is the decoded status of the call that failed. */
  lemma ShowResult(nv: Storage, t: seq<Step>, r: Result<TotpCode, TotpError>)
    requires ShowOutcome(nv, t, r)
    ensures r.Ok? <==> |t| == 2 && t[0].rc == 0 && t[1].rc == 0
    ensures r.Err? ==> t[|t| - 1].rc != 0 && r.error == FromRc(t[|t| - 1].rc)
  {
  }

  /** `reseal` calls load, reseal, delete, store in that order. */
  lemma ResealKinds(nv: Storage, password: string, t: seq<Step>,
                    r: Result<(), TotpError>, nv': Storage)
    requires ResealOutcome(nv, password, t, r, nv')
    ensures Kinds(t) == [Load, ResealBlob, Delete, Store][..|t|]
  {
    KindsPrefix(t, [Load, ResealBlob, Delete, Store]);
  }

  /** Each call is made only after every earlier one succeeded. */
  lemma ResealStopsAtFailure(nv: Storage, password: string, t: seq<Step>,
                             r: Result<(), TotpError>, nv': Storage)
    requires ResealOutcome(nv, password, t, r, nv')
    ensures forall i :: 0 <= i < |t| - 1 ==> t[i].rc == 0
  {
  }

  /** Load, delete and store all address the secret's slot, and the new blob
      is sealed to PCRs 0, 2, 7 in the SHA-1 and SHA-256 banks. */
  lemma ResealArguments(nv: Storage, password: string, t: seq<Step>,
                        r: Result<(), TotpError>, nv': Storage)
    requires ResealOutcome(nv, password, t, r, nv')
    ensures forall i :: 0 <= i < |t| && (t[i].LoadKeyNv? || t[i].DeleteKeyNv? || t[i].StoreKeyNv?) ==>
      t[i].nvIndex == NVRAM_INDEX
    ensures forall i :: 0 <= i < |t| && t[i].Reseal? ==> t[i].pcrs == 0x85 && t[i].banks == 0x3
  {
    PolicyMasks();
  }

  /** Success exactly when the store, the fourth call, succeeds. */
  lemma ResealSucceeds(nv: Storage, password: string, t: seq<Step>,
                       r: Result<(), TotpError>, nv': Storage)
    requires ResealOutcome(nv, password, t, r, nv')
    ensures r.Ok? <==> |t| == 4 && t[3].rc == 0
  {
  }

  /** A failure carries the decoded status of the call that stopped the
      operation, or, when that call succeeded, the NUL-in-password message. */
  lemma ResealError(nv: Storage, password: string, t: seq<Step>,
                    r: Result<(), TotpError>, nv': Storage)
    requires ResealOutcome(nv, password, t, r, nv')
    ensures r.Err? && t[|t| - 1].rc != 0 ==> r.error == FromRc(t[|t| - 1].rc)
    ensures r.Err? && t[|t| - 1].rc == 0 ==> |t| == 1 && HasNul(password) && r.error == Other(NulMessage(password))
  {
  }

  /** Failures before the delete leave the storage untouched. */
  lemma ResealKeepsStorage(nv: Storage, password: string, t: seq<Step>,
                           r: Result<(), TotpError>, nv': Storage)
    requires ResealOutcome(nv, password, t, r, nv')
    ensures (|t| < 3 || t[2].rc != 0) ==> nv' == nv
  {
  }

  /** A store that fails after a successful delete leaves the slot empty (the
      window the source does not close); success replaces the blob. */
  lemma ResealSlot(nv: Storage, password: string, t: seq<Step>,
                   r: Result<(), TotpError>, nv': Storage)
    requires ResealOutcome(nv, password, t, r, nv')
    ensures r.Err? ==> nv' == nv || (SlotOf(nv') == None && SlotOf(nv).Some? && |t| == 4 && t[2].rc == 0)
    ensures |t| == 4 && t[2].rc == 0 && t[3].rc != 0 ==>
              r.Err? && SlotOf(nv') == None && SlotOf(nv).Some? && nv' == nv - {NVRAM_INDEX}
    ensures r.Ok? ==> SlotOf(nv') == Some(t[1].newBlob) && SlotOf(nv).Some?
  {
    if r.Ok? {
      var b := t[1].newBlob;
      assert nv' == nv[NVRAM_INDEX := b];
      assert NVRAM_INDEX in nv' && nv'[NVRAM_INDEX] == b;
    }
  }

  /** No other index of the storage is touched. */
  lemma ResealOtherIndices(nv: Storage, password: string, t: seq<Step>,
                           r: Result<(), TotpError>, nv': Storage, i: u32)
    requires ResealOutcome(nv, password, t, r, nv')
    requires i != NVRAM_INDEX
    ensures i in nv' <==> i in nv
    ensures i in nv ==> nv'[i] == nv[i]
  {
    if nv' != nv && i in nv {
      if r.Ok? {
        assert nv' == nv[NVRAM_INDEX := t[1].newBlob];
      } else {
        assert nv' == nv - {NVRAM_INDEX};
      }
    }
  }

  /** The engine, holding one TPM session for its lifetime. */
  class Tpm2Totp {
    const context: Device

    constructor (context: Device)
      ensures this.context == context
    {
      this.context := context;
    }

    /** `Tpm2Totp::new`: a session that could not be opened becomes `Other`. */
    static method New(session: Result<Device, string>) returns (r: Result<Tpm2Totp, TotpError>)
      ensures session.Err? ==> r == Err(Other("tpm2-totp: failed to initialize TCTI context: " + session.error))
      ensures session.Ok? ==> r.Ok? && fresh(r.value) && r.value.context == session.value
    {
      match session
      case Err(err) =>
        r := Err(Other("tpm2-totp: failed to initialize TCTI context: " + err));
      case Ok(device) =>
        var engine := new Tpm2Totp(device);
        r := Ok(engine);
    }

    method Show() returns (r: Result<TotpCode, TotpError>)
      modifies context
      ensures context.nv == old(context.nv)
      ensures |context.trace| >= |old(context.trace)|
      ensures context.trace[..|old(context.trace)|] == old(context.trace)
      ensures ShowOutcome(old(context.nv), context.trace[|old(context.trace)|..], r)
    {
      var rc, keyBlob := context.LoadKeyNv(NVRAM_INDEX);
      if rc != 0 {
        return Err(FromRc(rc));
      }
      var totp;
      rc, totp := context.Calculate(keyBlob);
      if rc != 0 {
        return Err(FromRc(rc));
      }
      return Ok(TotpCode(totp));
    }

    method Reseal(password: string) returns (r: Result<(), TotpError>)
      modifies context
      ensures |context.trace| >= |old(context.trace)|
      ensures context.trace[..|old(context.trace)|] == old(context.trace)
      ensures ResealOutcome(old(context.nv), password, context.trace[|old(context.trace)|..], r, context.nv)
    {
      ghost var t0, nv0 := context.trace, context.nv;
      var rc, keyBlob := context.LoadKeyNv(NVRAM_INDEX);
      ghost var load := Step.LoadKeyNv(NVRAM_INDEX, rc);
      assert context.trace[|t0|..] == [load];
      if rc != 0 {
        return Err(FromRc(rc));
      }
      if HasNul(password) {
        return Err(Other(NulMessage(password)));
      }
      var newBlob;
      rc, newBlob := context.Reseal(keyBlob, password, PCRS, BANKS);
      ghost var reseal := Step.Reseal(keyBlob, password, PCRS, BANKS, rc, newBlob);
      assert context.trace[|t0|..] == [load, reseal];
      if rc != 0 {
        return Err(FromRc(rc));
      }
      rc := context.DeleteKeyNv(NVRAM_INDEX);
      ghost var delete := Step.DeleteKeyNv(NVRAM_INDEX, rc);
      assert context.trace[|t0|..] == [load, reseal, delete];
      if rc != 0 {
        return Err(FromRc(rc));
      }
      assert context.nv == nv0 - {NVRAM_INDEX};
      rc := context.StoreKeyNv(newBlob, NVRAM_INDEX);
      ghost var store := Step.StoreKeyNv(newBlob, NVRAM_INDEX, rc);
      assert context.trace[|t0|..] == [load, reseal, delete, store];
      if rc != 0 {
        return Err(FromRc(rc));
      }
      return Ok(());
    }
  }

  datatype Ptr = Null | Addr(address: nat)

  /** The C allocator's `free`, recorded as the addresses released. */
  class Allocator {
    var freed: seq<nat>

    constructor ()
      ensures freed == []
    {
      freed := [];
    }

    method Free(address: nat)
      modifies this
      ensures freed == old(freed) + [address]
    {
      freed := freed + [address];
    }
  }

  /** `AutoFree`: owns a buffer the C library allocated. */
  class AutoFree {
    var ptr: Ptr
    const heap: Allocator

    constructor (ptr: Ptr, heap: Allocator)
      ensures this.ptr == ptr && this.heap == heap
    {
      this.ptr := ptr;
      this.heap := heap;
    }

    /** `Drop`: frees a non-null pointer and leaves the pointer null. */
    method Drop()
      modifies this, heap
      ensures ptr == Null
      ensures heap.freed == old(heap.freed) + (if old(ptr).Addr? then [old(ptr).address] else [])
    {
      if ptr.Addr? {
        heap.Free(ptr.address);
        ptr := Null;
      }
    }
  }
}
