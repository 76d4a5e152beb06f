/**
 The life-cycle rules of the application manager: argument checks and
 path copies when it is created, the order in which initialisation acquires
 the subsystems and what each failure releases, which channels become
 active, the shutdown flag, and the error messages.

 Every subsystem's own start-up is an oracle: `Steps` says which of them
 succeed. C strings are character sequences read up to the first NUL (or
 their end); a NULL pointer is `None`.
 */
module ApplicationManager {
  import opened Text
  import Measurement

  /** Sizes of the two path buffers in the manager. */
  const I2cBusPathMax := 64
  const ConfigFilePathMax := 256

  /** Number of analog channels. */
  const NumChannels := 4

  // ---------------------------------------------------------------------
  // C strings
  // ---------------------------------------------------------------------

  /** `strlen`: characters before the first NUL; all of them when there is none. */
  function Strlen(s: seq<char>): (n: nat)
    ensures n <= |s| && '\0' !in s[..n]
    ensures n < |s| ==> s[n] == '\0'
  {
    match IndexOf(s, '\0')
    case Some(i) => i
    case None => |s|
  }

  /** The string a character array holds. */
  function CStr(s: seq<char>): (t: string)
    ensures '\0' !in t
  {
    s[..Strlen(s)]
  }

  /** Character `i`, where the end of the sequence reads as a terminating NUL. */
  function At(s: seq<char>, i: nat): char {
    if i < |s| then s[i] else '\0'
  }

  /** `strncmp(a, b, n) == 0`: equal up to and including the first NUL, looking at no more than `n` characters. */
  function StrNEqual(a: seq<char>, b: seq<char>, n: nat): bool
    decreases n
  {
    if n == 0 then true
    else if At(a, 0) != At(b, 0) then false
    else if At(a, 0) == '\0' then true
    else StrNEqual(a[1..], b[1..], n - 1)
  }

  lemma CStrCons(s: seq<char>)
    requires |s| > 0 && s[0] != '\0'
    ensures CStr(s) == [s[0]] + CStr(s[1..])
  {
    if '\0' in s[1..] {
      var i := Strlen(s[1..]);
      assert s[1..][i] == '\0';
      assert '\0' !in s[..i + 1] by {
        assert s[..i + 1] == [s[0]] + s[1..][..i];
      }
      IndexOfAfter(s[..i + 1], '\0', s[i + 2..]);
      assert s == s[..i + 1] + ['\0'] + s[i + 2..];
    } else {
      assert '\0' !in s;
    }
  }

  /**
   Against a string shorter than the bound, `strncmp` reports equality
   exactly when the two strings are equal.
   */
  lemma {:induction false} StrNEqualIsEquality(a: seq<char>, b: string, n: nat)
    requires '\0' !in b && |b| < n
    ensures StrNEqual(a, b, n) <==> CStr(a) == b
  {
    if |a| == 0 || a[0] == '\0' {
      assert CStr(a) == [];
    } else {
      CStrCons(a);
      if |b| > 0 && a[0] == b[0] {
        StrNEqualIsEquality(a[1..], b[1..], n - 1);
        assert b == [b[0]] + b[1..];
      }
    }
  }

  /** `strncpy(dst, src, n)`: the first `n` characters of `src`'s string, padded with NULs to `n`. */
  function StrNCopy(src: seq<char>, n: nat): (dst: seq<char>)
    ensures |dst| == n
  {
    var t := CStr(src);
    if |t| >= n then t[..n] else t + seq(n - |t|, _ => '\0')
  }

  /** A path buffer of `size` characters filled by `strncpy(dst, src, size - 1)` and then NUL-terminated at the end. */
  function StorePath(src: seq<char>, size: nat): (dst: seq<char>)
    requires size > 0
    ensures |dst| == size && dst[size - 1] == '\0'
  {
    StrNCopy(src, size - 1) + ['\0']
  }

  /** A path shorter than its buffer is stored verbatim. */
  lemma StorePathKeeps(src: seq<char>, size: nat)
    requires size > 0 && Strlen(src) < size
    ensures CStr(StorePath(src, size)) == CStr(src)
  {
    var t := CStr(src);
    var dst := StorePath(src, size);
    assert dst == t + (seq(size - 1 - |t|, _ => '\0') + ['\0']);
    assert dst[|t|] == '\0';
    IndexOfAfter(t, '\0', dst[|t| + 1..]);
    assert dst == t + ['\0'] + dst[|t| + 1..];
  }

  // ---------------------------------------------------------------------
  // app_manager_create
  // ---------------------------------------------------------------------

  /** The fields of the manager that creation sets; the rest start zeroed. */
  datatype Manager = Manager(keepRunning: bool, i2cBusPath: seq<char>, i2cAddress: int, configFilePath: seq<char>)

  /** `app_manager_create`; `allocates` is whether `calloc` succeeds. */
  function Create(i2cBus: Option<seq<char>>, i2cAddress: int, configFile: Option<seq<char>>, allocates: bool)
    : (r: Option<Manager>)
    ensures r.Some? <==>
              i2cBus.Some? && configFile.Some? && Strlen(i2cBus.value) < I2cBusPathMax &&
              Strlen(configFile.value) < ConfigFilePathMax && allocates
    ensures r.Some? ==>
              r.value.keepRunning && r.value.i2cAddress == i2cAddress &&
              |r.value.i2cBusPath| == I2cBusPathMax && r.value.i2cBusPath[I2cBusPathMax - 1] == '\0' &&
              |r.value.configFilePath| == ConfigFilePathMax && r.value.configFilePath[ConfigFilePathMax - 1] == '\0'
  {
    if i2cBus.None? || configFile.None? then None
    else if Strlen(i2cBus.value) >= I2cBusPathMax then None
    else if Strlen(configFile.value) >= ConfigFilePathMax then None
    else if !allocates then None
    else Some(Manager(true, StorePath(i2cBus.value, I2cBusPathMax), i2cAddress,
                      StorePath(configFile.value, ConfigFilePathMax)))
  }

  /** A created manager holds exactly the two paths it was given. */
  lemma CreateKeepsPaths(i2cBus: seq<char>, i2cAddress: int, configFile: seq<char>)
    requires Strlen(i2cBus) < I2cBusPathMax && Strlen(configFile) < ConfigFilePathMax
    ensures var r := Create(Some(i2cBus), i2cAddress, Some(configFile), true);
            r.Some? && CStr(r.value.i2cBusPath) == CStr(i2cBus) && CStr(r.value.configFilePath) == CStr(configFile)
  {
    StorePathKeeps(i2cBus, I2cBusPathMax);
    StorePathKeeps(configFile, ConfigFilePathMax);
  }

  // ---------------------------------------------------------------------
  // app_manager_init
  // ---------------------------------------------------------------------

  /** Error codes, as the enumeration numbers them. */
  const AppSuccess := 0
  const ErrorNullPointer := 1
  const ErrorMemoryAllocation := 2
  const ErrorInvalidParameter := 3
  const ErrorHardwareInitFailed := 4
  const ErrorConfigLoadFailed := 5
  const ErrorSenderInitFailed := 6
  const ErrorCoordinatorInitFailed := 7
  const ErrorPublisherInitFailed := 8
  const ErrorMutexInitFailed := 9

  /** What initialisation acquires and has to give back. */
  datatype Resource = Hardware | Mutex | Sender | Publisher

  /** Which start-up steps succeed: each subsystem's answer, `pthread_mutex_init`'s result code. */
  datatype Steps = Steps(hardware: bool, mutexResult: int, configLoads: bool, sender: bool,
                         coordinator: bool, publisher: bool)

  /**
   The code returned, the resources released on the way out (in the order
   released), the resources still held, and each channel's `is_active`
   flag once the channel loop has run (`None` before).
   */
  datatype InitOutcome = InitOutcome(code: int, released: seq<Resource>, held: seq<Resource>,
                                     active: Option<seq<bool>>)

  /** The channel-activation rule: the id is non-empty and not "NC", compared over at most 32 characters. */
  predicate IsActive(id: seq<char>) {
    !StrNEqual(id, "NC", Measurement.MeasurementIdSize) && Strlen(id) > 0
  }

  /** A channel is active exactly when its id is neither empty nor "NC". */
  lemma IsActiveIff(id: seq<char>)
    ensures IsActive(id) <==> CStr(id) != "" && CStr(id) != "NC"
  {
    StrNEqualIsEquality(id, "NC", Measurement.MeasurementIdSize);
  }

  /** `app_manager_init`; `ids` are the channel ids the configuration file loaded. */
  function Init(app: Option<Manager>, steps: Steps, ids: seq<seq<char>>): (r: InitOutcome)
    requires |ids| == NumChannels
    ensures r.code == AppSuccess <==>
              app.Some? && steps.hardware && steps.mutexResult == 0 && steps.configLoads && steps.sender &&
              steps.coordinator && steps.publisher
    ensures app.None? ==> r == InitOutcome(ErrorNullPointer, [], [], None)
    ensures app.Some? ==>
              (r.code == ErrorHardwareInitFailed <==> !steps.hardware) &&
              (r.code == ErrorMutexInitFailed <==> steps.hardware && steps.mutexResult != 0) &&
              (r.code == ErrorConfigLoadFailed <==> steps.hardware && steps.mutexResult == 0 && !steps.configLoads) &&
              (r.code == ErrorSenderInitFailed <==>
                 steps.hardware && steps.mutexResult == 0 && steps.configLoads && !steps.sender) &&
              (r.code == ErrorCoordinatorInitFailed <==>
                 steps.hardware && steps.mutexResult == 0 && steps.configLoads && steps.sender && !steps.coordinator) &&
              (r.code == ErrorPublisherInitFailed <==>
                 steps.hardware && steps.mutexResult == 0 && steps.configLoads && steps.sender && steps.coordinator &&
                 !steps.publisher)
    ensures r.code != AppSuccess ==> r.held == []
    ensures r.code == AppSuccess ==> r.released == [] && r.held == [Hardware, Mutex, Sender, Publisher]
    ensures r.active.Some? <==> r.code in {AppSuccess, ErrorCoordinatorInitFailed, ErrorPublisherInitFailed}
    ensures r.active.Some? ==>
              |r.active.value| == NumChannels &&
              forall i :: 0 <= i < NumChannels ==> r.active.value[i] == IsActive(ids[i])
  {
    var active := seq(NumChannels, i requires 0 <= i < NumChannels => IsActive(ids[i]));
    if app.None? then InitOutcome(ErrorNullPointer, [], [], None)
    else if !steps.hardware then InitOutcome(ErrorHardwareInitFailed, [], [], None)
    else if steps.mutexResult != 0 then InitOutcome(ErrorMutexInitFailed, [Hardware], [], None)
    else if !steps.configLoads then InitOutcome(ErrorConfigLoadFailed, [Mutex, Hardware], [], None)
    else if !steps.sender then InitOutcome(ErrorSenderInitFailed, [Mutex, Hardware], [], None)
    else if !steps.coordinator then InitOutcome(ErrorCoordinatorInitFailed, [Sender, Mutex, Hardware], [], Some(active))
    else if !steps.publisher then InitOutcome(ErrorPublisherInitFailed, [Sender, Mutex, Hardware], [], Some(active))
    else InitOutcome(AppSuccess, [], [Hardware, Mutex, Sender, Publisher], Some(active))
  }

  /** The resources in the order initialisation acquires them, up to the first step that fails. */
  function Acquired(steps: Steps): (acquired: seq<Resource>)
    ensures |acquired| <= 4
  {
    if !steps.hardware then []
    else if steps.mutexResult != 0 then [Hardware]
    else if !steps.configLoads || !steps.sender then [Hardware, Mutex]
    else if !steps.coordinator || !steps.publisher then [Hardware, Mutex, Sender]
    else [Hardware, Mutex, Sender, Publisher]
  }

  function Reverse<T>(s: seq<T>): (r: seq<T>)
    ensures |r| == |s| && forall i :: 0 <= i < |s| ==> r[i] == s[|s| - 1 - i]
  {
    if |s| == 0 then [] else Reverse(s[1..]) + [s[0]]
  }

  /**
   A failed initialisation releases exactly what it had acquired, most
   recent first; a successful one holds everything.
   */
  lemma InitReleasesWhatItAcquired(app: Manager, steps: Steps, ids: seq<seq<char>>)
    requires |ids| == NumChannels
    ensures var r := Init(Some(app), steps, ids);
            r.code != AppSuccess ==> r.released == Reverse(Acquired(steps))
    ensures var r := Init(Some(app), steps, ids);
            r.code == AppSuccess ==> r.held == Acquired(steps)
  {
    var a := Acquired(steps);
    var rev := Reverse(a);
    if |a| == 2 {
      assert rev == [a[1], a[0]];
    } else if |a| == 3 {
      assert rev == [a[2], a[1], a[0]];
    } else if |a| == 1 {
      assert rev == [a[0]];
    }
  }

  // ---------------------------------------------------------------------
  // app_manager_signal_shutdown, app_manager_error_string
  // ---------------------------------------------------------------------

  /** `app_manager_signal_shutdown`: clears the run flag; nothing else changes, and a NULL manager is left alone. */
  function SignalShutdown(app: Option<Manager>): (r: Option<Manager>)
    ensures r.Some? <==> app.Some?
    ensures r.Some? ==> !r.value.keepRunning && r.value.(keepRunning := app.value.keepRunning) == app.value
  {
    match app
    case None => None
    case Some(m) => Some(m.(keepRunning := false))
  }

  /** Signalling twice is the same as signalling once. */
  lemma SignalShutdownIdempotent(app: Option<Manager>)
    ensures SignalShutdown(SignalShutdown(app)) == SignalShutdown(app)
  {
  }

  /** The message for anything outside the enumeration. */
  const UnknownError := "Unknown error"

  /** `app_manager_error_string`. */
  function ErrorString(code: int): (s: string)
    ensures s == UnknownError <==> !(AppSuccess <= code <= ErrorMutexInitFailed)
  {
    if code == AppSuccess then "Success"
    else if code == ErrorNullPointer then "Null pointer provided"
    else if code == ErrorMemoryAllocation then "Memory allocation failed"
    else if code == ErrorInvalidParameter then "Invalid parameter"
    else if code == ErrorHardwareInitFailed then "Hardware initialization failed"
    else if code == ErrorConfigLoadFailed then "Configuration file load failed"
    else if code == ErrorSenderInitFailed then "Sender initialization failed"
    else if code == ErrorCoordinatorInitFailed then "Measurement coordinator initialization failed"
    else if code == ErrorPublisherInitFailed then "Data publisher initialization failed"
    else if code == ErrorMutexInitFailed then "Mutex initialization failed"
    else UnknownError
  }

  /**
   The code a message stands for, read off its length and, for the two
   messages of equal length, its first character; -1 for anything else.
   */
  function MessageCode(s: string): (code: int)
    ensures -1 <= code <= ErrorMutexInitFailed
  {
    match |s|
    case 7 => AppSuccess
    case 21 => ErrorNullPointer
    case 24 => ErrorMemoryAllocation
    case 17 => ErrorInvalidParameter
    case 30 => if |s| > 0 && s[0] == 'H' then ErrorHardwareInitFailed else ErrorConfigLoadFailed
    case 28 => ErrorSenderInitFailed
    case 45 => ErrorCoordinatorInitFailed
    case 36 => ErrorPublisherInitFailed
    case 27 => ErrorMutexInitFailed
    case _ => -1
  }

  /** Each message gives its code back, and the fallback message no code: the messages tell the codes apart. */
  lemma ErrorStringIdentifiesCode(code: int)
    ensures AppSuccess <= code <= ErrorMutexInitFailed ==> MessageCode(ErrorString(code)) == code
    ensures !(AppSuccess <= code <= ErrorMutexInitFailed) ==> MessageCode(ErrorString(code)) == -1
  {
    if code == ErrorHardwareInitFailed || code == ErrorConfigLoadFailed {
      assert ErrorString(code)[0] == if code == ErrorHardwareInitFailed then 'H' else 'C';
    }
  }

  /** Distinct codes of the enumeration have distinct messages. */
  lemma ErrorStringInjective(a: int, b: int)
    requires AppSuccess <= a <= ErrorMutexInitFailed && AppSuccess <= b <= ErrorMutexInitFailed
    requires ErrorString(a) == ErrorString(b)
    ensures a == b
  {
    ErrorStringIdentifiesCode(a);
    ErrorStringIdentifiesCode(b);
  }
}
