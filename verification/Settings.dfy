// What the panel stores about one server besides its name, and about backups,
// with the validation each part must pass (crates/guardian/src/config.rs,
// src/store.rs, src/api/backup_settings.rs).
module Settings {
  import opened Options
  import opened Properties

  const MAX_SERVER_MEMORY_MB: nat := 1_048_576
  const MIN_CONSOLE_BUFFER: nat := 10
  const MAX_CONSOLE_BUFFER: nat := 100_000
  const MAX_RETRIES: nat := 100
  const MAX_POLICY_DELAY_SECS: nat := 60 * 60
  const MAX_PREPARE_TIMEOUT_SECS: nat := 24 * 60 * 60
  const MAX_ARGUMENTS: nat := 128
  const MAX_ARGUMENT_BYTES: nat := 16 * 1024
  const MAX_JAVA_MAJOR: nat := 100

  /* ----- text ----- */

  // The length of the UTF-8 form.
  function ByteLen(s: string): nat {
    if s == [] then
      0
    else
      ByteLen(s[1..])
      + (if s[0] < '\U{0080}' then 1 else if s[0] < '\U{0800}' then 2 else if s[0] < '\U{10000}' then 3 else 4)
  }

  /** The length counts every character once, by its code point (section 3 of
      RFC 3629). */
  lemma {:induction false} LengthInBytes(a: string, b: string, c: char)
    ensures ByteLen(a + b) == ByteLen(a) + ByteLen(b)
    ensures c as int <= 0x7F ==> ByteLen([c]) == 1
    ensures 0x80 <= c as int <= 0x7FF ==> ByteLen([c]) == 2
    ensures 0x800 <= c as int <= 0xFFFF ==> ByteLen([c]) == 3
    ensures 0x1_0000 <= c as int ==> ByteLen([c]) == 4
  {
    assert [c][1..] == [];
    if a == [] {
      assert a + b == b;
    } else {
      LengthInBytes(a[1..], b, c);
      assert (a + b)[1..] == a[1..] + b;
    }
  }

  predicate HasControl(s: string) {
    '\0' in s || '\r' in s || '\n' in s
  }

  // No NUL, no line feed, no carriage return.
  predicate OneLine(s: string) {
    forall i | 0 <= i < |s| :: s[i] as int != 0 && s[i] as int != 10 && s[i] as int != 13
  }

  lemma ControlCharacters()
    ensures forall s: string :: HasControl(s) <==> !OneLine(s)
  {
  }

  // A required text of at most 128 bytes on one line.
  predicate ValidName(name: string) {
    Trim(name) != "" && ByteLen(name) <= 128 && !HasControl(name)
  }

  predicate IdCharacter(c: char) {
    'a' <= c <= 'z' || 'A' <= c <= 'Z' || '0' <= c <= '9' || c == '-' || c == '_'
  }

  predicate ValidId(id: string) {
    id != "" && ByteLen(id) <= 64 && forall i | 0 <= i < |id| :: IdCharacter(id[i])
  }

  /* ----- launch configuration ----- */

  datatype Config = Config(core: string, version: string, build: Option<string>, javaMajor: nat,
                           minHeap: nat, heap: nat, jvmArgs: seq<string>, serverArgs: seq<string>, port: nat)

  predicate ValidArguments(arguments: seq<string>) {
    && |arguments| <= MAX_ARGUMENTS
    && forall a | a in arguments :: ByteLen(a) <= MAX_ARGUMENT_BYTES && !HasControl(a)
  }

  predicate ValidMemory(minHeap: nat, heap: nat) {
    0 < minHeap <= heap <= MAX_SERVER_MEMORY_MB
  }

  predicate ValidConfig(c: Config) {
    && ValidName(c.core) && ValidName(c.version) && (c.build.Some? ==> ValidName(c.build.value))
    && 0 < c.javaMajor <= MAX_JAVA_MAJOR
    && ValidMemory(c.minHeap, c.heap)
    && ValidArguments(c.jvmArgs) && ValidArguments(c.serverArgs)
    && c.port != 0
  }

  predicate LabelLimits(s: string) {
    OneLine(s) && Trim(s) != "" && ByteLen(s) <= 128
  }

  predicate ArgumentLimits(arguments: seq<string>) {
    |arguments| <= 128 && forall a | a in arguments :: OneLine(a) && ByteLen(a) <= 16_384
  }

  /** Everything that is checked of a launch configuration, in figures. */
  lemma ConfigLimits(c: Config)
    ensures ValidConfig(c) <==>
            && LabelLimits(c.core) && LabelLimits(c.version) && (c.build.Some? ==> LabelLimits(c.build.value))
            && 1 <= c.javaMajor <= 100 && 1 <= c.minHeap <= c.heap <= 1_048_576
            && ArgumentLimits(c.jvmArgs) && ArgumentLimits(c.serverArgs) && c.port >= 1
  {
    ControlCharacters();
  }

  /* ----- supervision ----- */

  datatype Supervision = Supervision(autoRestart: bool, maxRetries: nat, retryDelay: nat, stopTimeout: nat,
                                     consoleBuffer: nat, prepareTimeout: nat)

  const DEFAULT_SUPERVISION := Supervision(true, 3, 5, 60, 500, 900)

  predicate ValidSupervision(s: Supervision) {
    && s.maxRetries <= MAX_RETRIES
    && s.retryDelay <= MAX_POLICY_DELAY_SECS && s.stopTimeout <= MAX_POLICY_DELAY_SECS
    && MIN_CONSOLE_BUFFER <= s.consoleBuffer <= MAX_CONSOLE_BUFFER
    && 0 < s.prepareTimeout <= MAX_PREPARE_TIMEOUT_SECS
  }

  lemma SupervisionLimits(s: Supervision)
    ensures ValidSupervision(s) <==>
            && s.maxRetries <= 100 && s.retryDelay <= 3_600 && s.stopTimeout <= 3_600
            && 10 <= s.consoleBuffer <= 100_000 && 1 <= s.prepareTimeout <= 86_400
  {
  }

  /* ----- backups ----- */

  datatype Provider = Local | GoogleDrive

  datatype Retention = Retention(maxBackups: nat, maxAgeDays: Option<nat>)

  datatype Drive = Drive(folderId: string, credentialRef: string)

  /** Where backups go and how long they stay: the global settings, or the
      override of one server. */
  datatype BackupPolicy = BackupPolicy(provider: Provider, retention: Retention, drive: Option<Drive>)

  const DEFAULT_POLICY := BackupPolicy(Local, Retention(1, None), None)

  predicate ValidRetention(r: Retention) {
    1 <= r.maxBackups <= 1000 && (r.maxAgeDays.Some? ==> r.maxAgeDays.value != 0)
  }

  predicate ValidDrive(d: Drive) {
    && ByteLen(d.folderId) <= 512
    && Trim(d.credentialRef) != "" && ByteLen(d.credentialRef) <= 64
    && forall i | 0 <= i < |d.credentialRef| :: IdCharacter(d.credentialRef[i])
  }

  predicate ValidPolicy(p: BackupPolicy) {
    ValidRetention(p.retention) && (p.drive.Some? ==> ValidDrive(p.drive.value))
  }

  // Letters, digits, `-` and `_` of ASCII, so many at most.
  predicate IdLimits(s: string, most: nat) {
    && ByteLen(s) <= most
    && forall i | 0 <= i < |s| ::
         0x30 <= s[i] as int <= 0x39 || 0x41 <= s[i] as int <= 0x5A || 0x61 <= s[i] as int <= 0x7A
         || s[i] as int == 0x2D || s[i] as int == 0x5F
  }

  /** Everything that is checked of an id and of a backup policy, in figures. */
  lemma PolicyLimits(p: BackupPolicy, id: string)
    ensures ValidId(id) <==> id != "" && IdLimits(id, 64)
    ensures ValidPolicy(p) <==>
            && 1 <= p.retention.maxBackups <= 1_000 && p.retention.maxAgeDays != Some(0)
            && (p.drive.Some? ==> ByteLen(p.drive.value.folderId) <= 512 && IdLimits(p.drive.value.credentialRef, 64)
                                  && Trim(p.drive.value.credentialRef) != "")
  {
  }

  datatype DriveUpdate = DriveUpdate(folderId: Option<string>, credentialRef: Option<string>)

  // The body of a PATCH request; absent fields stay as they are.
  datatype PolicyUpdate = PolicyUpdate(provider: Option<Provider>, retention: Option<Retention>,
                                       drive: Option<DriveUpdate>)

  function UpdatedDrive(current: Option<Drive>, u: DriveUpdate): Drive {
    var base := if current.Some? then current.value else Drive("", "google-drive");
    Drive(if u.folderId.Some? then u.folderId.value else base.folderId,
          if u.credentialRef.Some? then u.credentialRef.value else base.credentialRef)
  }

  // The policy that the request asks for, unless part of it is refused.
  function UpdatedPolicy(p: BackupPolicy, u: PolicyUpdate): Option<BackupPolicy> {
    var drive := if u.drive.Some? then Some(UpdatedDrive(p.drive, u.drive.value)) else p.drive;
    if u.retention.Some? && !ValidRetention(u.retention.value) then None
    else if u.drive.Some? && !ValidDrive(drive.value) then None
    else Some(BackupPolicy(if u.provider.Some? then u.provider.value else p.provider,
                           if u.retention.Some? then u.retention.value else p.retention,
                           drive))
  }

  /** A request puts each field it gives into the field of that name and keeps
      the others; a Drive folder given for the first time gets the usual credential. */
  lemma UpdatedPolicyFields(p: BackupPolicy, u: PolicyUpdate)
    requires UpdatedPolicy(p, u).Some?
    ensures var q := UpdatedPolicy(p, u).value;
            && (u.provider.Some? ==> q.provider == u.provider.value) && (u.provider.None? ==> q.provider == p.provider)
            && (u.retention.Some? ==> q.retention == u.retention.value)
            && (u.retention.None? ==> q.retention == p.retention)
            && (u.drive.None? ==> q.drive == p.drive)
            && (u.drive.Some? ==>
                  && q.drive.Some?
                  && (u.drive.value.folderId.Some? ==> q.drive.value.folderId == u.drive.value.folderId.value)
                  && (u.drive.value.folderId.None? ==>
                        q.drive.value.folderId == if p.drive.Some? then p.drive.value.folderId else "")
                  && (u.drive.value.credentialRef.Some? ==>
                        q.drive.value.credentialRef == u.drive.value.credentialRef.value)
                  && (u.drive.value.credentialRef.None? ==>
                        q.drive.value.credentialRef
                        == if p.drive.Some? then p.drive.value.credentialRef else "google-drive"))
  {
  }

  /** Validating only what a request changes is enough: a stored policy stays
      valid. */
  lemma UpdatedPolicyIsValid(p: BackupPolicy, u: PolicyUpdate)
    requires ValidPolicy(p) && UpdatedPolicy(p, u).Some?
    ensures ValidPolicy(UpdatedPolicy(p, u).value)
  {
  }

  /** Asking for the same again changes nothing. */
  lemma UpdatedPolicyTwice(p: BackupPolicy, u: PolicyUpdate)
    requires UpdatedPolicy(p, u).Some?
    ensures UpdatedPolicy(UpdatedPolicy(p, u).value, u) == UpdatedPolicy(p, u)
  {
    var once := UpdatedPolicy(p, u).value;
    if u.drive.Some? {
      assert UpdatedDrive(once.drive, u.drive.value) == once.drive.value;
    }
  }
}
