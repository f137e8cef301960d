# popsec in Dafny

A model of the TPM2-TOTP part of popsec, System76's tool that proves to a
user that the firmware and boot chain have not changed. The TPM holds a TOTP
secret sealed to PCRs 0, 2 and 7. A root daemon answers `Tpm2TotpShow` over
D-Bus with the current code. A settings panel polls the daemon once per
30-second window, shows the code with a countdown, and offers to set up or
reseal the secret when the daemon reports that none is stored or that the
system state changed.

The project has six modules:

- `Tpm2Totp` (`tpm2_totp.dfy`) covers src/tpm2_totp.rs.
  - It has the error enum and its Display texts, and `from_rc` with the seven status constants.
  - It has the fixed NVRAM index and the PCR and bank masks.
  - It has `show` and `reseal`, written as methods of a `Tpm2Totp` class over a `Device`. `Device` stands for the TPM behind the TCTI context and the five `tpm2totp_*` primitives.
  - The device holds the NV storage as a map from index to blob. It records every primitive call in a trace. It returns statuses the model does not choose, with three assumptions about the C library listed under "Left out".
  - Predicates `ShowOutcome` and `ResealOutcome` state which calls each operation makes, what it returns, and the storage afterwards. The lemmas derive the ordering and storage properties from them.
  - `AutoFree` and its `Drop` are modelled over a recording allocator.
- `Dbus` (`dbus.dfy`) covers src/dbus.rs: the endpoint constants, both conversions between `TotpError` and a D-Bus error (an optional name and an optional message), and the conversion to `MethodErr`.
- `PopsecGtk` (`gtk.dfy`) covers the logic in gtk/src/lib.rs:
  - the 30-second window arithmetic;
  - the poller thread, as a class with the refresh flag and a log of what it sent and when it slept;
  - the `receiver.attach` handler, as a function from a message to the row's visible state;
  - the password dialog's accept loop;
  - the secure boot decision;
  - the `otpauth://` URL.
- `Base32` (`base32.dfy`) is the unpadded RFC 4648 section 6 encoding the URL uses, with its decoder and the round trip.
- `Numerals` (`numerals.dfy`) is decimal and hex formatting (`{}`, `{:x}`, `{:06}`) with a parser that reads the text back.
- `Wrappers` (`wrappers.dfy`) holds `Option` and `Result`.

Behaviour of the code worth noting:

- `from_rc` compares the status for equality with seven values. It does not decode bit masks.
- A D-Bus error with an unknown name is not turned into `Other(message)`. The D-Bus error itself comes back as the `Err`.
- The text for an unknown status is `unknown (0x<hex>`, with no closing parenthesis.
- The hex digits are the 32-bit pattern of the C `int`. A negative status prints as `fffffff6`, for example.
- A `reseal` whose store fails after a successful delete leaves the slot empty.

## Model

| member | source | states |
|---|---|---|
| Tpm2Totp.StatusValues | src/tpm2_totp.rs:56-62 | The five TPM statuses are 0x14C, 0x18B, 0x99D, 0x98E and 0x921. The seven recognised statuses are pairwise distinct, so no status belongs to two named errors. |
| Tpm2Totp.FromRcNamed | src/tpm2_totp.rs:64-71 | `from_rc` of a named error's status is that error. A status that decodes to a named error is exactly that error's status. |
| Tpm2Totp.FromRcUnknown | src/tpm2_totp.rs:72 | A status decodes to `Other` exactly when it is none of the seven. The text is `unknown (0x` followed by lower-case hex of the 32-bit pattern. The text has no closing parenthesis, and the status can be read back from it. |
| Numerals.ParseFormat | src/tpm2_totp.rs:72 | `{:x}` and `{}` text is non-empty and uses only the base's digit characters. It has no leading zero unless the number is 0, and it reads back as the number. |
| Tpm2Totp.PolicyMasks | src/tpm2_totp.rs:85-88 | The PCR mask is 0x85 with bits 0, 2 and 7 set. The bank mask is 0x3. |
| Tpm2Totp.FirstNul | src/tpm2_totp.rs:137-141 | Finds the first NUL of the password, the character `CString::new` rejects. |
| Tpm2Totp.Tpm2Totp.New | src/tpm2_totp.rs:93-102 | A TCTI context that cannot be opened gives `Other("tpm2-totp: failed to initialize TCTI context: " + reason)`. Otherwise the result is an engine on that context. |
| Tpm2Totp.Device.LoadKeyNv | src/tpm2_totp.rs:127-132 | Reading a blob leaves storage unchanged and appends one trace entry. An absent index gives 0x18B. A zero status returns the stored blob. |
| Tpm2Totp.Device.Calculate | src/tpm2_totp.rs:196-202 | Calculating a code leaves storage unchanged and appends one trace entry. |
| Tpm2Totp.Device.Reseal | src/tpm2_totp.rs:144-153 | Resealing a blob leaves storage unchanged and appends one trace entry with its arguments and results. |
| Tpm2Totp.Device.DeleteKeyNv | src/tpm2_totp.rs:158-161 | A zero status removes the index. Any other status leaves storage unchanged, and an absent index gives 0x18B. |
| Tpm2Totp.Device.StoreKeyNv | src/tpm2_totp.rs:166-171 | A zero status defines the index with the new blob. Any other status leaves storage unchanged, and an index already defined gives 0x14C. |
| Tpm2Totp.Tpm2Totp.Show | src/tpm2_totp.rs:180-209 | `show` leaves storage unchanged. It only appends to the trace, and the appended calls and its result satisfy `ShowOutcome`. |
| Tpm2Totp.Tpm2Totp.Reseal | src/tpm2_totp.rs:123-178 | `reseal` only appends to the trace. The appended calls, its result and the storage afterwards satisfy `ResealOutcome`. |
| Tpm2Totp.ShowReadOnly | src/tpm2_totp.rs:184-205 | `show` calls load and then calculate, and never reseal, delete or store. |
| Tpm2Totp.ShowEmptySlot | src/tpm2_totp.rs:184-192 | With no secret stored, `show` fails with `SecretNotFound` after the load alone, so calculate is never called. |
| Tpm2Totp.ShowResult | src/tpm2_totp.rs:190-207 | `show` returns a code exactly when both calls return 0. Otherwise it returns `from_rc` of the nonzero status that stopped it. |
| Tpm2Totp.ResealKinds | src/tpm2_totp.rs:127-171 | `reseal` calls load, reseal, delete and store in that order. When it stops early, the calls made are a prefix of that order. |
| Tpm2Totp.ResealStopsAtFailure | src/tpm2_totp.rs:133-173 | Every call except the last one made returned 0, so `reseal` stops at the first nonzero status. |
| Tpm2Totp.ResealArguments | src/tpm2_totp.rs:128-169 | Load, delete and store all use index 0x018094AF. The reseal uses mask 0x85 and banks 0x3. |
| Tpm2Totp.ResealSucceeds | src/tpm2_totp.rs:166-176 | `reseal` succeeds exactly when four calls were made and the store returned 0. |
| Tpm2Totp.ResealError | src/tpm2_totp.rs:133-173 | A failure is `from_rc` of the nonzero status that stopped `reseal`. If the last call returned 0, the failure is the NUL-in-password error, raised after the load alone. |
| Tpm2Totp.ResealKeepsStorage | src/tpm2_totp.rs:127-164 | A failure of the load, of the password conversion, of the reseal or of the delete leaves storage exactly as it was. |
| Tpm2Totp.ResealSlot | src/tpm2_totp.rs:158-176 | A failed `reseal` leaves storage unchanged, except that a store failing after a successful delete leaves the slot empty. That case always fails, and the storage afterwards is the old storage without the slot. A successful `reseal` leaves the new blob in a slot that held a blob before. |
| Tpm2Totp.ResealOtherIndices | src/tpm2_totp.rs:158-171 | No index other than 0x018094AF is defined, removed or changed. |
| Tpm2Totp.AutoFree.Drop | src/tpm2_totp.rs:17-23 | A non-null pointer is freed once and set to null. A null pointer frees nothing, so dropping again frees nothing more. |
| Dbus.Endpoint | src/dbus.rs:7-11 | The interface name equals the bus name `com.system76.PopSec`. The object path and the method name are fixed. |
| Dbus.ToDbus | src/dbus.rs:30-59 | The D-Bus error's name lies in the `com.system76.PopSec.Error.` namespace, and the client's `TryFrom` decoding of it gives back exactly the error it was made from. |
| Dbus.DecodeNamed | src/dbus.rs:75-101 | A variant's name decodes to that variant whatever the message. For the `Other` name the result takes the message, or the empty string when there is none. |
| Dbus.ErrorNamePrefix | src/dbus.rs:32-57 | Every error name is `com.system76.PopSec.Error.` followed by a non-empty suffix. |
| Dbus.ErrorNameInjective | src/dbus.rs:32-57 | Two errors share a name exactly when they are the same variant (all `Other` values share one name). |
| Dbus.OtherMessage | src/dbus.rs:58 | The message of `Other(s)` is exactly `s`. |
| Dbus.RoundTrip | src/dbus.rs:30-105 | Decoding the D-Bus error of any `TotpError` gives that error back, including the text of `Other(s)`. |
| Dbus.TryFromNames | src/dbus.rs:70-103 | Decoding succeeds exactly when the name is one of the eight. A decoded error has the name it was decoded from. A missing or unknown name returns the same D-Bus error as `Err`. |
| Dbus.OtherWithoutMessage | src/dbus.rs:97-100 | The `Other` name with no message decodes to `Other("")`. |
| Dbus.MethodErrOf | src/dbus.rs:64 | The method error takes the D-Bus error's name and message. |
| Dbus.ToMethodErr | src/dbus.rs:62-66 | The method error for an error has its variant's name and its Display text. |
| Dbus.MethodErrAgrees | src/dbus.rs:62-66 | The method error and the D-Bus error for the same error have the same name and message. |
| PopsecGtk.WindowBounds | gtk/src/lib.rs:228-233 | The window end is the next multiple of 30 seconds after the start, as in RFC 6238 section 4. Between 1 and 30 seconds remain. |
| PopsecGtk.WindowExamples | gtk/src/lib.rs:229-233 | A start at second 17 leaves 13 seconds. A start at second 31 leaves 29. |
| PopsecGtk.CountdownTicks | gtk/src/lib.rs:234-244 | Turn j sends the seconds remaining at tick j and then sleeps, and nothing else is produced. |
| PopsecGtk.CountdownStops | gtk/src/lib.rs:234-244 | Every timeout before the last has time remaining. The countdown ends after a timeout with no time left, or at the turn where the refresh flag is seen set. |
| PopsecGtk.CountdownRefreshed | gtk/src/lib.rs:234 | A refresh raised before the first check ends the countdown without sending anything. |
| PopsecGtk.CountdownIdealClock | gtk/src/lib.rs:234-244 | With a clock advancing one second per turn and no refresh, the timeouts count down from end - start to 0. |
| PopsecGtk.ErrorNoRetry | gtk/src/lib.rs:220-224 | After an error the poller sends it, sleeps once and then only counts down, with no new code or error in the round. |
| PopsecGtk.RoundStartsWithResult | gtk/src/lib.rs:214-225 | Every round first sends the code or the error it fetched. |
| PopsecGtk.Poller.RaiseRefresh | gtk/src/lib.rs:286 | A button handler sets the refresh flag after its call and sends nothing. |
| PopsecGtk.Poller.Countdown | gtk/src/lib.rs:234-244 | The loop produces exactly the steps of `CountdownSteps` and leaves the flag cleared. |
| PopsecGtk.Poller.PollRound | gtk/src/lib.rs:214-244 | One pass of the outer loop produces exactly the steps of `RoundSteps`. |
| PopsecGtk.Poller.Run | gtk/src/lib.rs:213-245 | The outer loop produces the rounds' steps in order. |
| PopsecGtk.DispatchCode | gtk/src/lib.rs:347-351 | A code is shown as at least six decimal digits that read back as the code. The progress bar is shown and both buttons are hidden. |
| PopsecGtk.DispatchError | gtk/src/lib.rs:353-369 | An error hides the bar. The init button is shown exactly for `SecretNotFound`, and the reseal button exactly for `SystemStateChanged`. Any other error shows its text. |
| PopsecGtk.DispatchTimeout | gtk/src/lib.rs:371-373 | A timeout changes only the progress bar. |
| PopsecGtk.OneControlAlways | gtk/src/lib.rs:345-376 | After any sequence of messages, at most one of the bar and the two buttons is visible. |
| PopsecGtk.InitialOneControl | gtk/src/lib.rs:249-267 | The row as built shows none of them, so the property holds from the start. |
| PopsecGtk.PasswordDialog | gtk/src/lib.rs:181-192 | The dialog returns nothing exactly when the response is not Ok. With confirmation it returns only when the two entries are equal, and every earlier run had mismatched entries. Without confirmation it returns the first entry. |
| PopsecGtk.EfiFlagMeaning | gtk/src/lib.rs:89-95 | A flag holds exactly when the file was read and its byte 4 exists and is nonzero. |
| PopsecGtk.SecureBootStates | gtk/src/lib.rs:98-106 | The state is setup mode exactly when both flags hold, and enabled exactly when only secure boot holds. It is disabled whenever secure boot is off. |
| PopsecGtk.OtpAuthUrlSecret | gtk/src/lib.rs:109-123 | The URL is `otpauth://totp/`, then the description, then `?secret=`, then text that decodes to exactly the secret, with no `=` after the parameter name. |
| PopsecGtk.DescriptionCases | gtk/src/lib.rs:110-113 | The description is the host name followed by ` TPM2-TOTP`, or `TPM2-TOTP` when the host name cannot be read. |
| Base32.DecodeEncode | gtk/src/lib.rs:114-117 | Unpadded RFC 4648 base 32 is lossless: decoding the encoding gives the bytes back. |
| Base32.EncodeShape | gtk/src/lib.rs:114-117 | The encoding is ceil(8n/5) symbols from A-Z and 2-7, with no `=` padding. |
| Numerals.ParseZeroPad | gtk/src/lib.rs:348 | `{:06}` text is all decimal digits and reads back as the code. |
| PopsecGtk.MissingSecretOffersInit | gtk/src/lib.rs:358-361 | `SecretNotFound` sent by the daemon over D-Bus and decoded with `TryFrom<dbus::Error>` makes the panel show the init button. |

## Left out

- `Tpm2Totp::clean`, `init` and `recover` are `unimplemented!()` in the source. `label` depends only on the host name lookup.
- The `println!` of the status in `from_rc` is a debug side effect.
- The FFI internals of the `tpm2totp_*` functions and of `TctiContext::initialize` are foreign C code and device I/O. The model replaces them with `Device` and a session result given as a parameter.
- The code only names 0x18B and 0x14C, as the statuses `from_rc` turns into `SecretNotFound` and `SecretAlreadyExists` (src/tpm2_totp.rs:58-59). No call site checks for them. The model's `Device` assumes three things of the tpm2-totp C library:
  - An absent index gives 0x18B when loaded or deleted. `Tpm2Totp.ShowEmptySlot` rests on this.
  - Storing to an index already defined gives 0x14C.
  - A delete or a store that returns a nonzero status changes no storage. The empty-slot half of `Tpm2Totp.ResealSlot` rests on this.
- Other primitive statuses are left open. The TOTP value, the new blob and the `now` output of calculate are unconstrained. Blob sizes are implicit in the byte sequences.
- Tpm2Totp.Tpm2Totp.Show: does not model the release of the key blob buffer. `AutoFree` is modelled on its own, and its `Drop` contract covers every drop.
- Tpm2Totp.Tpm2Totp.Reseal: does not model the release of the two blob buffers, and for the same reason.
- The D-Bus `Client` (`new`, `call_method`, `tpm2_totp_show`) and its transport `Error` enum are blocking I/O. The panel sees a transport failure only as `Transport(text)`.
- The daemon (daemon/src/main.rs) and the application bootstrap (gtk/src/main.rs) are not part of this model.
- dbus-rs's conversion of names and messages to C strings is treated as lossless.
- The panel matches `DbusError::Totp(..)` and calls `tpm2_totp_init` and `tpm2_totp_reseal`, and none of these are in src/dbus.rs. The model dispatches over `ClientError = Totp(error) | Transport(text)`, and takes the Display of `Totp(e)` to be the Display of `e`.
- `TotpSecret` is not in src/tpm2_totp.rs. `otpauth_url` is modelled over the secret's bytes.
- The init and reseal button handlers are modelled only as raising the refresh flag after their call. The handlers' dialogs, the QR code and the printed errors are left out.
- Threads, the atomic flag, the glib channel and `thread::sleep` are replaced by one sequential poller. Clock readings and refresh raises are supplied as ticks, and a sleep is a logged step.
- The `Client::new().unwrap()` panics are left out.
- PopsecGtk.MissingSecretOffersInit: assumes the client decodes daemon errors with `TryFrom<dbus::Error>` (src/dbus.rs:68-105). The `Client::tpm2_totp_show` in src/dbus.rs:133-138 does not call it; it wraps every reply error in `Error::Call`.
- PopsecGtk.PasswordDialog: requires a run that closes the dialog. While the two entries differ, the source re-prompts forever.
- PopsecGtk.Poller.Countdown: requires a tick that reaches the window end. The source relies on the real clock reaching it.
- PopsecGtk.Poller.Run: runs the outer `loop` over a finite sequence of rounds, not forever.
- The progress fraction `1.0 - remaining / 30.0` is floating point. `Timeout` carries the integer `remaining` instead.
- Widgets, the `fl!` localisation and the reading of the efivars files are left out. Localised texts appear as their message identifiers, and file contents are inputs.
