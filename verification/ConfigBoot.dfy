/** Boot-time configuration: precedence of SD card and flash, and staging of certificates. */
module ConfigBoot {
  import opened Wrappers
  import opened Crc
  import opened ConfigImage

  /** The files the firmware keeps on flash, under names of its own. */
  datatype FlashFile = ConfigFile | ClientCert | ClientKey | MqttCa | OtaCa

  type Files = map<FlashFile, seq<Byte>>

  /** A mounted card: its files, and the configuration its INI file parses to, None when it is rejected. */
  datatype Card = Card(files: map<seq<Byte>, seq<Byte>>, config: Option<Config>)
  {
    ghost predicate Valid() { config.Some? ==> Version(config.value) == VERSION }
  }

  /** What can go wrong while a file is copied to flash; a read error comes after n bytes. */
  datatype CopyFault = NoFault | NoSource | CannotOpen | NoBuffer | ReadsOnly(n: nat) | WritesOnly(n: nat)

  datatype SaveFault = Saves | CannotSave | SavesOnly(n: nat)

  datatype LoadFault = OutOfMemory | CannotReopen | ShortRead

  datatype Faults = Faults(mount: bool, configUnreadable: bool, save: SaveFault, unreadable: set<FlashFile>,
                           copy: map<FlashFile, CopyFault>, load: map<FlashFile, LoadFault>)

  const NO_FAULTS := Faults(false, false, Saves, {}, map[], map[])

  datatype Certs = Certs(clientCert: Option<seq<Byte>>, clientKey: Option<seq<Byte>>,
                         mqttCa: Option<seq<Byte>>, otaCa: Option<seq<Byte>>)

  const NO_CERTS := Certs(None, None, None, None)

  /** ESP_OK is None. */
  datatype Outcome = Outcome(err: Option<Error>, files: Files, writes: seq<FlashFile>)

  // ----- fields of the configuration that name certificate files -----

  function CString(b: seq<Byte>): (s: seq<Byte>)
    ensures |s| <= |b| && 0 !in s
  {
    if b == [] || b[0] == 0 then [] else [b[0]] + CString(b[1..])
  }

  /** The certificate's file name on the card, empty when none is configured. */
  function CertName(c: Config, k: FlashFile): seq<Byte> {
    match k
    case ConfigFile => []
    case OtaCa => CString(c[104..136])
    case MqttCa => CString(c[271..303])
    case ClientCert => CString(c[399..431])
    case ClientKey => CString(c[431..463])
  }

  // ----- specification of the steps -----

  function CopyResult(o: Outcome, k: FlashFile, content: seq<Byte>, fault: CopyFault): Outcome {
    match fault
    case NoSource => o.(err := Some(NotFound))
    case CannotOpen => o.(err := Some(Fail))
    case NoBuffer => Outcome(Some(NoMemory), o.files[k := []], o.writes + [k])
    case NoFault => Outcome(None, o.files[k := content], o.writes + [k])
    case _ =>
      if fault.n < |content| then Outcome(Some(Fail), o.files[k := content[..fault.n]], o.writes + [k])
      else Outcome(None, o.files[k := content], o.writes + [k])
  }

  /**
   * The destination is touched exactly when both files could be opened, and then holds a beginning of the source:
   * all of it exactly when no fault came before its end. Other files are never touched.
   */
  lemma CopyLeaves(o: Outcome, k: FlashFile, content: seq<Byte>, fault: CopyFault)
    ensures var r := CopyResult(o, k, content, fault);
            var untouched := fault.NoSource? || fault.CannotOpen?;
            && (untouched ==> r.files == o.files && r.writes == o.writes && r.err.Some?)
            && (!untouched ==> r.writes == o.writes + [k] && k in r.files && r.files[k] <= content)
            && (forall j :: j != k ==> (j in r.files <==> j in o.files) && (j in o.files ==> r.files[j] == o.files[j]))
            && (r.err.None? ==> r.files[k] == content)
            && (r.err.None? <==> fault.NoFault? || ((fault.ReadsOnly? || fault.WritesOnly?) && fault.n >= |content|))
            && (r.err.Some? && !untouched ==> |r.files[k]| == if fault.NoBuffer? then 0 else fault.n)
            && (r.err == Some(NotFound) <==> fault.NoSource?) && (r.err == Some(NoMemory) <==> fault.NoBuffer?)
  {
  }

  /** save_config_to_spiffs: one write of the whole image. */
  function SaveResult(o: Outcome, image: seq<Byte>, fault: SaveFault): Outcome {
    match fault
    case Saves => Outcome(None, o.files[ConfigFile := image], o.writes + [ConfigFile])
    case CannotSave => o.(err := Some(Fail))
    case SavesOnly(n) =>
      if n < |image| then Outcome(Some(Fail), o.files[ConfigFile := image[..n]], o.writes + [ConfigFile])
      else Outcome(None, o.files[ConfigFile := image], o.writes + [ConfigFile])
  }

  /** The image on flash is a beginning of the one saved: all of it exactly after a success. */
  lemma SaveLeaves(o: Outcome, image: seq<Byte>, fault: SaveFault)
    ensures var r := SaveResult(o, image, fault);
            && (fault.CannotSave? ==> r == o.(err := Some(Fail)))
            && (!fault.CannotSave? ==> r.writes == o.writes + [ConfigFile] && ConfigFile in r.files
                                       && r.files[ConfigFile] <= image && (r.err.None? || r.err == Some(Fail)))
            && (r.err.None? <==> fault.Saves? || (fault.SavesOnly? && fault.n >= |image|))
            && (r.err.None? ==> r.files[ConfigFile] == image)
            && forall j :: j != ConfigFile ==>
                 (j in r.files <==> j in o.files) && (j in o.files ==> r.files[j] == o.files[j])
  {
  }

  /** needs_update, for a certificate that is on the card: same size and same hash means no. */
  predicate UpToDate(files: Files, k: FlashFile, content: seq<Byte>, hash: seq<Byte> -> seq<Byte>) {
    k in files && |files[k]| == |content| && hash(files[k]) == hash(content)
  }

  function StageCert(o: Outcome, card: Card, c: Config, k: FlashFile, hash: seq<Byte> -> seq<Byte>, f: Faults): Outcome
  {
    var name := CertName(c, k);
    if o.err.Some? || name == [] then o
    else if name !in card.files then o.(err := Some(NotFound))
    else
      var content := card.files[name];
      if k in o.files && |o.files[k]| == |content| && k in f.unreadable then o.(err := Some(Fail))
      else if UpToDate(o.files, k, content, hash) then o
      else CopyResult(o, k, content, if k in f.copy then f.copy[k] else NoFault)
  }

  /**
   * A configured certificate that is not on the card is an error, and so is a flash copy of the same size that
   * cannot be read; neither writes anything. Nothing is copied over an equal file.
   */
  lemma StageErrors(o: Outcome, card: Card, c: Config, k: FlashFile, hash: seq<Byte> -> seq<Byte>, f: Faults)
    requires o.err.None? && CertName(c, k) != []
    ensures var r := StageCert(o, card, c, k, hash, f);
            && (CertName(c, k) !in card.files ==> r == o.(err := Some(NotFound)))
            && (CertName(c, k) in card.files && k in o.files ==>
                  var content := card.files[CertName(c, k)];
                  && (|o.files[k]| == |content| && k in f.unreadable ==> r == o.(err := Some(Fail)))
                  && (o.files[k] == content && k !in f.unreadable ==> r == o))
  {
    hide CString;
  }

  function EnsureCerts(o: Outcome, card: Card, c: Config, hash: seq<Byte> -> seq<Byte>, f: Faults): Outcome {
    var o1 := StageCert(o, card, c, ClientCert, hash, f);
    var o2 := StageCert(o1, card, c, ClientKey, hash, f);
    var o3 := StageCert(o2, card, c, MqttCa, hash, f);
    StageCert(o3, card, c, OtaCa, hash, f)
  }

  /** load_certificate_to_psram: not configured, or the flash copy if it is there and not empty. */
  function LoadCert(files: Files, c: Config, k: FlashFile, f: Faults): Result<Option<seq<Byte>>, Error> {
    if CertName(c, k) == [] then Success(None)
    else if k !in files then Failure(NotFound)
    else if files[k] == [] then Failure(InvalidSize)
    else if k in f.load then
      match f.load[k]
      case OutOfMemory => Failure(NoMemory)
      case CannotReopen => Failure(NotFound)
      case ShortRead => Failure(Fail)
    else Success(Some(files[k]))
  }

  /** The slots filled until an error, if any, ends the loading. */
  datatype Loaded = Loaded(err: Option<Error>, certs: Certs)

  /** load_certificates_to_psram. */
  function LoadCerts(files: Files, c: Config, f: Faults): Loaded {
    var a := LoadCert(files, c, ClientCert, f);
    if a.Failure? then Loaded(Some(a.error), NO_CERTS)
    else
      var b := LoadCert(files, c, ClientKey, f);
      if b.Failure? then Loaded(Some(b.error), Certs(a.value, None, None, None))
      else
        var m := LoadCert(files, c, MqttCa, f);
        if m.Failure? then Loaded(Some(m.error), Certs(a.value, b.value, None, None))
        else if CertName(c, OtaCa) == [] then Loaded(None, Certs(a.value, b.value, m.value, m.value))
        else
          var t := LoadCert(files, c, OtaCa, f);
          if t.Failure? then Loaded(Some(t.error), Certs(a.value, b.value, m.value, None))
          else Loaded(None, Certs(a.value, b.value, m.value, t.value))
  }

  /** The certificate that a slot in memory holds. */
  function Slot(certs: Certs, k: FlashFile): Option<seq<Byte>> {
    match k
    case ConfigFile => None
    case ClientCert => certs.clientCert
    case ClientKey => certs.clientKey
    case MqttCa => certs.mqttCa
    case OtaCa => certs.otaCa
  }

  function StoredConfig(files: Files): Result<Config, Error> {
    Load(if ConfigFile in files then Some(files[ConfigFile]) else None)
  }

  /** A stored configuration that cannot be opened or read counts as none. */
  function ReadConfig(files: Files, f: Faults): Result<Config, Error> {
    if f.configUnreadable then Failure(Fail) else StoredConfig(files)
  }

  /** The configuration in use after the precedence rule, and the flash after updating it. */
  function Choose(files: Files, card: Option<Card>, alignment: seq<Byte>, hash: seq<Byte> -> seq<Byte>, f: Faults):
    (Outcome, Option<Config>)
    requires |alignment| == 2
  {
    var flash := ReadConfig(files, f);
    var o := Outcome(None, files, []);
    if card.Some? && card.value.config.Some? then
      var c := card.value.config.value;
      var o1 := if flash == Success(c) then o else SaveResult(o, Image(c, alignment), f.save);
      (if o1.err.Some? then o1 else EnsureCerts(o1, card.value, c, hash, f), Some(c))
    else if flash.Success? then (o, Some(flash.value))
    else (o.(err := Some(NotFound)), None)
  }

  datatype BootResult = BootResult(outcome: Outcome, config: Option<Config>, certs: Certs)

  /** config_manager_init. */
  function Boot(files: Files, card: Option<Card>, alignment: seq<Byte>, hash: seq<Byte> -> seq<Byte>, f: Faults):
    BootResult
    requires |alignment| == 2
  {
    if f.mount then BootResult(Outcome(Some(Fail), files, []), None, NO_CERTS)
    else
      var (o, c) := Choose(files, card, alignment, hash, f);
      if o.err.Some? || c.None? then BootResult(o, c, NO_CERTS)
      else
        var loaded := LoadCerts(o.files, c.value, f);
        BootResult(o.(err := loaded.err), c, loaded.certs)
  }

  // ----- the flash partition -----

  class Flash {
    var files: Files
    ghost var writes: seq<FlashFile>

    constructor (files: Files)
      ensures this.files == files && writes == []
    {
      this.files, writes := files, [];
    }

    ghost function Now(err: Option<Error>): Outcome
      reads this
    {
      Outcome(err, files, writes)
    }

    /** copy_file_chunked: opening the destination truncates it, then chunks of 4096 bytes are written. */
    method Copy(k: FlashFile, content: seq<Byte>, fault: CopyFault) returns (err: Option<Error>)
      modifies this
      ensures Now(err) == CopyResult(old(Now(None)), k, content, fault)
    {
      if fault.NoSource? {
        return Some(NotFound);
      }
      if fault.CannotOpen? {
        return Some(Fail);
      }
      files := files[k := []];
      writes := writes + [k];
      if fault.NoBuffer? {
        return Some(NoMemory);
      }
      var readable := if fault.ReadsOnly? && fault.n < |content| then fault.n else |content|;
      var pos := 0;
      while pos < readable
        invariant 0 <= pos <= readable
        invariant files == old(files)[k := content[..pos]]
        invariant fault.WritesOnly? ==> pos <= fault.n
        invariant writes == old(writes) + [k]
      {
        var n := if readable - pos < 4096 then readable - pos else 4096;
        var written := if fault.WritesOnly? && fault.n < pos + n then fault.n - pos else n;
        assert content[..pos] + content[pos..pos + written] == content[..pos + written];
        files := files[k := files[k] + content[pos..pos + written]];
        if written != n {
          return Some(Fail);
        }
        pos := pos + n;
      }
      assert content[..|content|] == content;
      if readable < |content| {
        return Some(Fail);
      }
      return None;
    }

    method Save(image: seq<Byte>, fault: SaveFault) returns (err: Option<Error>)
      modifies this
      ensures Now(err) == SaveResult(old(Now(None)), image, fault)
    {
      if fault.CannotSave? {
        return Some(Fail);
      }
      var len := if fault.SavesOnly? && fault.n < |image| then fault.n else |image|;
      files := files[ConfigFile := image[..len]];
      writes := writes + [ConfigFile];
      assert image[..|image|] == image;
      if len != |image| {
        return Some(Fail);
      }
      return None;
    }

    /** stage_cert_from_sd. After a success the certificate agrees with the card, and no other file has changed. */
    method Stage(card: Card, c: Config, k: FlashFile, hash: seq<Byte> -> seq<Byte>, f: Faults)
      returns (err: Option<Error>)
      modifies this
      ensures Now(err) == StageCert(old(Now(None)), card, c, k, hash, f)
      ensures err.None? ==> Staged(old(Now(None)), Now(None), card, CertName(c, k), k, hash)
    {
      StageFrame(Now(None), card, c, k, hash, f);
      hide CertName, Staged;
      var name := CertName(c, k);
      if name == [] {
        return None;
      }
      if name !in card.files {
        return Some(NotFound);
      }
      var content := card.files[name];
      if k in files && |files[k]| == |content| {
        if k in f.unreadable {
          return Some(Fail);
        }
        if hash(content) == hash(files[k]) {
          return None;
        }
      }
      err := Copy(k, content, if k in f.copy then f.copy[k] else NoFault);
    }

    /** ensure_certs. After a success every configured certificate agrees with the card. */
    method EnsureAll(card: Card, c: Config, hash: seq<Byte> -> seq<Byte>, f: Faults) returns (err: Option<Error>)
      modifies this
      ensures Now(err) == EnsureCerts(old(Now(None)), card, c, hash, f)
      ensures err.None? ==> AllUpToDate(files, card, c, hash) && StoredConfig(files) == old(StoredConfig(files))
    {
      if EnsureCerts(Now(None), card, c, hash, f).err.None? {
        EnsuredCerts(Now(None), card, c, hash, f);
      }
      hide StageCert, AllUpToDate, Staged, StoredConfig;
      err := Stage(card, c, ClientCert, hash, f);
      if err.Some? { return; }
      err := Stage(card, c, ClientKey, hash, f);
      if err.Some? { return; }
      err := Stage(card, c, MqttCa, hash, f);
      if err.Some? { return; }
      err := Stage(card, c, OtaCa, hash, f);
    }

    method Init(card: Option<Card>, alignment: seq<Byte>, hash: seq<Byte> -> seq<Byte>, f: Faults)
      returns (err: Option<Error>, config: Option<Config>, certs: Certs)
      requires |alignment| == 2 && writes == []
      modifies this
      ensures BootResult(Now(err), config, certs) == Boot(old(files), card, alignment, hash, f)
    {
      hide Load, LoadCerts, Image, StageCert, EnsureCerts, SaveResult, CertName, AllUpToDate;
      config, certs := None, NO_CERTS;
      if f.mount {
        return Some(Fail), None, NO_CERTS;
      }
      var flash := ReadConfig(files, f);
      if card.Some? && card.value.config.Some? {
        config := card.value.config;
        if flash.Failure? || config.value != flash.value {
          err := Save(Image(config.value, alignment), f.save);
          if err.Some? { return; }
        }
        err := EnsureAll(card.value, config.value, hash, f);
        if err.Some? { return; }
      } else if flash.Success? {
        config := Some(flash.value);
      } else {
        return Some(NotFound), None, NO_CERTS;
      }
      err, certs := LoadAll(config.value, f);
    }

    /** load_certificates_to_psram: the slots filled before an error stay filled. */
    method LoadAll(c: Config, f: Faults) returns (err: Option<Error>, certs: Certs)
      ensures Loaded(err, certs) == LoadCerts(files, c, f)
    {
      hide CertName, LoadCert;
      err, certs := None, NO_CERTS;
      var slot := LoadCert(files, c, ClientCert, f);
      if slot.Failure? { return Some(slot.error), certs; }
      certs := certs.(clientCert := slot.value);
      slot := LoadCert(files, c, ClientKey, f);
      if slot.Failure? { return Some(slot.error), certs; }
      certs := certs.(clientKey := slot.value);
      slot := LoadCert(files, c, MqttCa, f);
      if slot.Failure? { return Some(slot.error), certs; }
      certs := certs.(mqttCa := slot.value);
      if CertName(c, OtaCa) == [] {
        certs := certs.(otaCa := certs.mqttCa);
      } else {
        slot := LoadCert(files, c, OtaCa, f);
        if slot.Failure? { return Some(slot.error), certs; }
        certs := certs.(otaCa := slot.value);
      }
    }
  }

  // ----- across boots -----

  /** The order in which the certificates are staged, and the slots filled. */
  function Position(k: FlashFile): nat {
    match k case ConfigFile => 0 case ClientCert => 1 case ClientKey => 2 case MqttCa => 3 case OtaCa => 4
  }

  /** For each configured certificate the flash holds something that the card's copy hashes to. */
  ghost predicate AllUpToDate(files: Files, card: Card, c: Config, hash: seq<Byte> -> seq<Byte>) {
    forall k: FlashFile :: CertName(c, k) != [] ==>
      CertName(c, k) in card.files && UpToDate(files, k, card.files[CertName(c, k)], hash)
  }

  /** The flash holds the card's configuration and agrees with its certificates. */
  ghost predicate InStep(files: Files, card: Card, hash: seq<Byte> -> seq<Byte>) {
    && card.config.Some? && StoredConfig(files) == Success(card.config.value)
    && AllUpToDate(files, card, card.config.value, hash)
  }

  /** What one stage leaves behind: the certificate agrees with the card, other files are untouched. */
  ghost predicate Staged(o: Outcome, r: Outcome, card: Card, name: seq<Byte>, k: FlashFile,
                         hash: seq<Byte> -> seq<Byte>) {
    && (forall j :: j != k ==> (j in r.files <==> j in o.files) && (j in o.files ==> r.files[j] == o.files[j]))
    && (name != [] ==> name in card.files && UpToDate(r.files, k, card.files[name], hash))
  }

  lemma StageFrame(o: Outcome, card: Card, c: Config, k: FlashFile, hash: seq<Byte> -> seq<Byte>, f: Faults)
    ensures var r := StageCert(o, card, c, k, hash, f);
            && (o.err.Some? ==> r.err.Some?)
            && (r.err.None? ==> Staged(o, r, card, CertName(c, k), k, hash))
  {
    hide CString;
  }

  lemma UpToDateFrame(o: Outcome, r: Outcome, card: Card, name: seq<Byte>, k: FlashFile, hash: seq<Byte> -> seq<Byte>,
                      j: FlashFile, content: seq<Byte>)
    requires Staged(o, r, card, name, k, hash) && j != k && UpToDate(o.files, j, content, hash)
    ensures UpToDate(r.files, j, content, hash)
  {
  }

  lemma EnsuredCerts(o: Outcome, card: Card, c: Config, hash: seq<Byte> -> seq<Byte>, f: Faults)
    requires EnsureCerts(o, card, c, hash, f).err.None?
    ensures var files := EnsureCerts(o, card, c, hash, f).files;
            AllUpToDate(files, card, c, hash) && StoredConfig(files) == StoredConfig(o.files)
  {
    assert CertName(c, ConfigFile) == [];
    hide StageCert, CertName, CopyResult, UpToDate;
    var o1 := StageCert(o, card, c, ClientCert, hash, f);
    var o2 := StageCert(o1, card, c, ClientKey, hash, f);
    var o3 := StageCert(o2, card, c, MqttCa, hash, f);
    var o4 := StageCert(o3, card, c, OtaCa, hash, f);
    StageFrame(o, card, c, ClientCert, hash, f);
    StageFrame(o1, card, c, ClientKey, hash, f);
    StageFrame(o2, card, c, MqttCa, hash, f);
    StageFrame(o3, card, c, OtaCa, hash, f);
    forall k | CertName(c, k) != []
      ensures CertName(c, k) in card.files && UpToDate(o4.files, k, card.files[CertName(c, k)], hash)
    {
      if k == ClientCert {
        UpToDateFrame(o1, o2, card, CertName(c, ClientKey), ClientKey, hash, k, card.files[CertName(c, k)]);
      }
      if k == ClientCert || k == ClientKey {
        UpToDateFrame(o2, o3, card, CertName(c, MqttCa), MqttCa, hash, k, card.files[CertName(c, k)]);
      }
      if k != OtaCa {
        UpToDateFrame(o3, o4, card, CertName(c, OtaCa), OtaCa, hash, k, card.files[CertName(c, k)]);
      }
    }
  }

  lemma StageOnlyOwn(o: Outcome, card: Card, c: Config, k: FlashFile, hash: seq<Byte> -> seq<Byte>, f: Faults)
    ensures var r := StageCert(o, card, c, k, hash, f);
            && (forall j :: j != k ==> SameFile(o.files, r.files, j)) && (o.err.Some? ==> r == o)
            && (o.err.None? && r.err.Some? ==> CertName(c, k) != [])
  {
    hide CertName, CopyResult, UpToDate;
    if o.err.None? && CertName(c, k) != [] && CertName(c, k) in card.files {
      CopyLeaves(o, k, card.files[CertName(c, k)], if k in f.copy then f.copy[k] else NoFault);
    }
  }

  /** The outcomes of the four stages, each of which touches its own file only, and none after a failure. */
  lemma Stages(o: Outcome, card: Card, c: Config, hash: seq<Byte> -> seq<Byte>, f: Faults)
    returns (o1: Outcome, o2: Outcome, o3: Outcome, o4: Outcome)
    ensures o4 == EnsureCerts(o, card, c, hash, f)
    ensures o1 == StageCert(o, card, c, ClientCert, hash, f) && o2 == StageCert(o1, card, c, ClientKey, hash, f)
    ensures o3 == StageCert(o2, card, c, MqttCa, hash, f) && o4 == StageCert(o3, card, c, OtaCa, hash, f)
    ensures forall j :: j != ClientCert ==> SameFile(o.files, o1.files, j)
    ensures forall j :: j != ClientKey ==> SameFile(o1.files, o2.files, j)
    ensures forall j :: j != MqttCa ==> SameFile(o2.files, o3.files, j)
    ensures forall j :: j != OtaCa ==> SameFile(o3.files, o4.files, j)
    ensures (o1.err.Some? ==> o2 == o1) && (o2.err.Some? ==> o3 == o2) && (o3.err.Some? ==> o4 == o3)
  {
    hide StageCert;
    o1 := StageCert(o, card, c, ClientCert, hash, f);
    o2 := StageCert(o1, card, c, ClientKey, hash, f);
    o3 := StageCert(o2, card, c, MqttCa, hash, f);
    o4 := StageCert(o3, card, c, OtaCa, hash, f);
    StageOnlyOwn(o, card, c, ClientCert, hash, f);
    StageOnlyOwn(o1, card, c, ClientKey, hash, f);
    StageOnlyOwn(o2, card, c, MqttCa, hash, f);
    StageOnlyOwn(o3, card, c, OtaCa, hash, f);
    hide SameFile;
  }

  lemma SameAfterAll(a: Files, b: Files, c: Files, d: Files, e: Files, k: FlashFile)
    requires SameFile(a, b, k) && SameFile(b, c, k) && SameFile(c, d, k) && SameFile(d, e, k)
    ensures SameFile(a, e, k)
  {
  }

  lemma SameAsItself(a: Files, k: FlashFile)
    ensures SameFile(a, a, k)
  {
  }

  /**
   * When the staging fails, it fails at one certificate: all before it agree with the card, and those behind it,
   * and the stored configuration, are as they were.
   */
  lemma EnsureFailsAtFirst(o: Outcome, card: Card, c: Config, hash: seq<Byte> -> seq<Byte>, f: Faults)
    returns (k: FlashFile)
    requires o.err.None? && EnsureCerts(o, card, c, hash, f).err.Some?
    ensures var files := EnsureCerts(o, card, c, hash, f).files;
            && CertName(c, k) != []
            && (forall j :: Position(j) > Position(k) || j == ConfigFile ==> SameFile(o.files, files, j))
            && forall j :: Position(j) < Position(k) && CertName(c, j) != [] ==>
                 CertName(c, j) in card.files && UpToDate(files, j, card.files[CertName(c, j)], hash)
  {
    assert CertName(c, ConfigFile) == [];
    hide StageCert, EnsureCerts, CertName, UpToDate, SameFile;
    var o1, o2, o3, o4 := Stages(o, card, c, hash, f);
    k := if o1.err.Some? then ClientCert else if o2.err.Some? then ClientKey
         else if o3.err.Some? then MqttCa else OtaCa;
    StageOnlyOwn(if k == ClientCert then o else if k == ClientKey then o1 else if k == MqttCa then o2 else o3,
                 card, c, k, hash, f);
    forall j | Position(j) > Position(k) || j == ConfigFile ensures SameFile(o.files, o4.files, j) {
      SameAsItself(o1.files, j);
      SameAsItself(o2.files, j);
      SameAsItself(o3.files, j);
      SameAfterAll(o.files, o1.files, o2.files, o3.files, o4.files, j);
    }
    forall j | Position(j) < Position(k) && CertName(c, j) != []
      ensures CertName(c, j) in card.files && UpToDate(o4.files, j, card.files[CertName(c, j)], hash)
    {
      var before := if j == ClientCert then o else if j == ClientKey then o1 else o2;
      var staged := if j == ClientCert then o1 else if j == ClientKey then o2 else o3;
      StageFrame(before, card, c, j, hash, f);
      SameAsItself(staged.files, j);
      SameAfterAll(staged.files, staged.files, if j == ClientCert then o2.files else staged.files,
                   o3.files, o4.files, j);
      StillUpToDate(staged.files, o4.files, j, card.files[CertName(c, j)], hash);
    }
  }

  lemma StillUpToDate(a: Files, b: Files, k: FlashFile, content: seq<Byte>, hash: seq<Byte> -> seq<Byte>)
    requires SameFile(a, b, k)
    ensures UpToDate(a, k, content, hash) ==> UpToDate(b, k, content, hash)
  {
  }

  /** Without a card, or with one whose configuration is rejected, a boot writes nothing and uses the stored one. */
  lemma BootWithoutUsableCard(files: Files, card: Option<Card>, alignment: seq<Byte>, hash: seq<Byte> -> seq<Byte>,
                              f: Faults)
    requires |alignment| == 2 && (card.None? || card.value.config.None?)
    ensures var boot := Boot(files, card, alignment, hash, f);
            && boot == Boot(files, None, alignment, hash, f)
            && boot.outcome.files == files && boot.outcome.writes == []
            && (boot.config.None? <==> f.mount || f.configUnreadable || StoredConfig(files).Failure?)
            && (boot.config.None? ==> boot.outcome.err == Some(if f.mount then Fail else NotFound)
                                      && boot.certs == NO_CERTS)
            && (boot.config.Some? ==> StoredConfig(files) == Success(boot.config.value)
                                      && LoadCerts(files, boot.config.value, f) == Loaded(boot.outcome.err, boot.certs))
  {
    hide Load, LoadCerts;
  }

  /**
   * With a valid card, whatever fails, the configuration in use is the card's, and the certificates are not touched
   * before it has been saved, nor loaded before they have been staged.
   */
  lemma SavedBeforeStaging(files: Files, card: Card, alignment: seq<Byte>, hash: seq<Byte> -> seq<Byte>, f: Faults)
    requires |alignment| == 2 && card.Valid() && card.config.Some? && !f.mount
    ensures var boot := Boot(files, Some(card), alignment, hash, f);
            && boot.config == card.config
            && (StoredConfig(boot.outcome.files) == Success(card.config.value)
                || forall k :: k != ConfigFile ==> SameFile(files, boot.outcome.files, k))
            && (boot.certs != NO_CERTS ==> InStep(boot.outcome.files, card, hash))
  {
    hide Load, Image, LoadCerts, StageCert, AllUpToDate;
    var c := card.config.value;
    var o0 := Outcome(None, files, []);
    LoadSaved(c, alignment);
    var o := if ReadConfig(files, f) == Success(c) then o0 else SaveResult(o0, Image(c, alignment), f.save);
    if o.err.None? {
      EnsureKeepsConfig(o, card, c, hash, f);
      if EnsureCerts(o, card, c, hash, f).err.None? {
        EnsuredCerts(o, card, c, hash, f);
      }
    }
  }

  lemma EnsureKeepsConfig(o: Outcome, card: Card, c: Config, hash: seq<Byte> -> seq<Byte>, f: Faults)
    ensures SameFile(o.files, EnsureCerts(o, card, c, hash, f).files, ConfigFile)
  {
    hide StageCert, EnsureCerts, SameFile;
    var o1, o2, o3, o4 := Stages(o, card, c, hash, f);
    SameAfterAll(o.files, o1.files, o2.files, o3.files, o4.files, ConfigFile);
  }

  /** What precedes the staging of certificates in a successful boot with a valid card. */
  lemma BootWithCard(files: Files, card: Card, alignment: seq<Byte>, hash: seq<Byte> -> seq<Byte>, f: Faults)
    returns (o: Outcome)
    requires |alignment| == 2 && card.Valid() && card.config.Some?
    requires Boot(files, Some(card), alignment, hash, f).outcome.err.None?
    ensures var c := card.config.value;
            var boot := Boot(files, Some(card), alignment, hash, f);
            && o.err.None? && StoredConfig(o.files) == Success(c)
            && (forall k :: k != ConfigFile ==> SameFile(files, o.files, k))
            && EnsureCerts(o, card, c, hash, f).err.None?
            && boot.outcome.files == EnsureCerts(o, card, c, hash, f).files
            && boot.config == card.config
            && LoadCerts(boot.outcome.files, c, f) == Loaded(None, boot.certs)
  {
    hide Load, Image, CertName, LoadCerts, EnsureCerts;
    var c := card.config.value;
    var o0 := Outcome(None, files, []);
    LoadSaved(c, alignment);
    o := if ReadConfig(files, f) == Success(c) then o0 else SaveResult(o0, Image(c, alignment), f.save);
  }

  ghost predicate SameFile(a: Files, b: Files, k: FlashFile) {
    (k in a <==> k in b) && (k in a ==> a[k] == b[k])
  }

  /** A boot with a valid card that succeeds leaves the flash in step with the card. */
  lemma BootBringsInStep(files: Files, card: Card, alignment: seq<Byte>, hash: seq<Byte> -> seq<Byte>, f: Faults)
    requires |alignment| == 2 && card.Valid() && card.config.Some?
    requires Boot(files, Some(card), alignment, hash, f).outcome.err.None?
    ensures InStep(Boot(files, Some(card), alignment, hash, f).outcome.files, card, hash)
  {
    hide Boot, EnsureCerts, Load, CertName, LoadCerts, UpToDate;
    var o := BootWithCard(files, card, alignment, hash, f);
    EnsuredCerts(o, card, card.config.value, hash, f);
  }

  /** With flash and card in step, a boot without faults changes nothing and uses the stored files. */
  lemma BootInStep(files: Files, card: Card, withCard: bool, alignment: seq<Byte>, hash: seq<Byte> -> seq<Byte>)
    requires |alignment| == 2 && InStep(files, card, hash)
    requires LoadCerts(files, card.config.value, NO_FAULTS).err.None?
    ensures Boot(files, if withCard then Some(card) else None, alignment, hash, NO_FAULTS)
            == BootResult(Outcome(None, files, []), card.config, LoadCerts(files, card.config.value, NO_FAULTS).certs)
  {
    var c := card.config.value;
    hide CertName, Load, LoadCerts;
    var o := Outcome(None, files, []);
    assert StageCert(o, card, c, ClientCert, hash, NO_FAULTS) == o;
    assert StageCert(o, card, c, ClientKey, hash, NO_FAULTS) == o;
    assert StageCert(o, card, c, MqttCa, hash, NO_FAULTS) == o;
    assert StageCert(o, card, c, OtaCa, hash, NO_FAULTS) == o;
  }

  lemma LoadWithoutFaults(files: Files, c: Config, f: Faults)
    requires LoadCerts(files, c, f).err.None?
    ensures LoadCerts(files, c, NO_FAULTS) == LoadCerts(files, c, f)
  {
    hide CertName;
  }

  /** Which error a certificate that cannot be loaded gives: each only when those before it do not apply. */
  lemma LoadCertErrors(files: Files, c: Config, k: FlashFile, f: Faults)
    ensures var r := LoadCert(files, c, k, f);
            var there := CertName(c, k) != [] && k in files;
            var fault := if k in f.load then Some(f.load[k]) else None;
            && (r.Success? <==> CertName(c, k) == [] || (there && files[k] != [] && fault.None?))
            && (r == Failure(NotFound) <==>
                  CertName(c, k) != [] && (k !in files || (files[k] != [] && fault == Some(CannotReopen))))
            && (r == Failure(InvalidSize) <==> there && files[k] == [])
            && (r == Failure(NoMemory) <==> there && files[k] != [] && fault == Some(OutOfMemory))
            && (r == Failure(Fail) <==> there && files[k] != [] && fault == Some(ShortRead))
  {
    hide CertName;
  }

  /** The certificate and all before it can be loaded. */
  ghost predicate LoadsThrough(files: Files, c: Config, f: Faults, k: FlashFile) {
    forall j: FlashFile :: Position(j) <= Position(k) ==> LoadCert(files, c, j, f).Success?
  }

  /**
   * A slot is filled exactly when its certificate and all before it load, whether or not a later one fails:
   * with the whole flash file if it is configured, else with nothing, or for OTA the MQTT one.
   */
  lemma LoadedIsStored(files: Files, c: Config, f: Faults, k: FlashFile)
    ensures var l := LoadCerts(files, c, f);
            && (l.err.None? <==> LoadsThrough(files, c, f, OtaCa))
            && (if !LoadsThrough(files, c, f, k) then Slot(l.certs, k) == None
                else if CertName(c, k) != [] then k in files && files[k] != [] && Slot(l.certs, k) == Some(files[k])
                else Slot(l.certs, k) == if k == OtaCa then Slot(l.certs, MqttCa) else None)
  {
    assert CertName(c, ConfigFile) == [];
    hide CertName;
    ThroughEach(files, c, f, k);
    ThroughEach(files, c, f, OtaCa);
    hide LoadsThrough;
  }

  lemma ThroughEach(files: Files, c: Config, f: Faults, k: FlashFile)
    ensures LoadsThrough(files, c, f, k) <==>
              && (Position(k) >= 1 ==> LoadCert(files, c, ClientCert, f).Success?)
              && (Position(k) >= 2 ==> LoadCert(files, c, ClientKey, f).Success?)
              && (Position(k) >= 3 ==> LoadCert(files, c, MqttCa, f).Success?)
              && (Position(k) >= 4 ==> LoadCert(files, c, OtaCa, f).Success?)
  {
    assert LoadCert(files, c, ConfigFile, f).Success?;
    hide LoadCert;
    assert Position(ClientCert) == 1 && Position(ClientKey) == 2 && Position(MqttCa) == 3 && Position(OtaCa) == 4;
  }

  /**
   * If a boot with a valid card succeeds, whatever went wrong before, then a later boot on the same flash
   * without a card, and one with the same card, succeed with the same configuration and certificates; and
   * neither writes to flash. No property of the hash function is needed.
   */
  lemma RebootKeepsConfiguration(files: Files, card: Card, withCard: bool, alignment: seq<Byte>, alignment': seq<Byte>,
                                 hash: seq<Byte> -> seq<Byte>, f: Faults)
    requires |alignment| == |alignment'| == 2 && card.Valid() && card.config.Some?
    requires Boot(files, Some(card), alignment, hash, f).outcome.err.None?
    ensures var first := Boot(files, Some(card), alignment, hash, f);
            var second := Boot(first.outcome.files, if withCard then Some(card) else None, alignment', hash, NO_FAULTS);
            && second.outcome == Outcome(None, first.outcome.files, [])
            && first.config == second.config == card.config
            && second.certs == first.certs
  {
    hide Boot, InStep, LoadCerts, EnsureCerts, Load, CertName;
    BootBringsInStep(files, card, alignment, hash, f);
    var first := Boot(files, Some(card), alignment, hash, f);
    var o := BootWithCard(files, card, alignment, hash, f);
    LoadWithoutFaults(first.outcome.files, card.config.value, f);
    BootInStep(first.outcome.files, card, withCard, alignment', hash);
  }

  /** A stale flash copy of the same size that hashes to the same value. */
  ghost predicate Collides(files: Files, k: FlashFile, content: seq<Byte>, hash: seq<Byte> -> seq<Byte>) {
    k in files && files[k] != content && |files[k]| == |content| && hash(files[k]) == hash(content)
  }

  lemma StageValue(o: Outcome, card: Card, c: Config, k: FlashFile, hash: seq<Byte> -> seq<Byte>, f: Faults)
    requires StageCert(o, card, c, k, hash, f).err.None? && CertName(c, k) != []
    ensures CertName(c, k) in card.files
    ensures var content := card.files[CertName(c, k)];
            var r := StageCert(o, card, c, k, hash, f).files;
            k in r && r[k] == if UpToDate(o.files, k, content, hash) then o.files[k] else content
  {
    hide CString;
  }

  lemma EnsuredValue(o: Outcome, card: Card, c: Config, k: FlashFile, hash: seq<Byte> -> seq<Byte>, f: Faults)
    requires EnsureCerts(o, card, c, hash, f).err.None? && CertName(c, k) != []
    ensures CertName(c, k) in card.files
    ensures var content := card.files[CertName(c, k)];
            var files := EnsureCerts(o, card, c, hash, f).files;
            k in files && files[k] == if UpToDate(o.files, k, content, hash) then o.files[k] else content
  {
    assert k != ConfigFile;
    hide StageCert, CertName, CopyResult;
    var o1 := StageCert(o, card, c, ClientCert, hash, f);
    var o2 := StageCert(o1, card, c, ClientKey, hash, f);
    var o3 := StageCert(o2, card, c, MqttCa, hash, f);
    var o4 := StageCert(o3, card, c, OtaCa, hash, f);
    StageFrame(o, card, c, ClientCert, hash, f);
    StageFrame(o1, card, c, ClientKey, hash, f);
    StageFrame(o2, card, c, MqttCa, hash, f);
    StageFrame(o3, card, c, OtaCa, hash, f);
    var before := match k case ClientCert => o case ClientKey => o1 case MqttCa => o2 case _ => o3;
    assert SameFile(o.files, before.files, k);
    StageValue(before, card, c, k, hash, f);
    assert SameFile(StageCert(before, card, c, k, hash, f).files, o4.files, k);
  }

  /**
   * After a successful boot with a valid card, each configured certificate in memory is the flash copy, and
   * that is the card's, except exactly where a stale copy of the same size already hashed to the same value.
   */
  lemma CertificatesAreTheCards(files: Files, card: Card, alignment: seq<Byte>, hash: seq<Byte> -> seq<Byte>, f: Faults,
                                k: FlashFile)
    requires |alignment| == 2 && card.Valid() && card.config.Some?
    requires Boot(files, Some(card), alignment, hash, f).outcome.err.None?
    requires CertName(card.config.value, k) != []
    ensures CertName(card.config.value, k) in card.files
    ensures var content := card.files[CertName(card.config.value, k)];
            var boot := Boot(files, Some(card), alignment, hash, f);
            var after := boot.outcome.files;
            && k in after && Slot(boot.certs, k) == Some(after[k])
            && (after[k] == content <==> !Collides(files, k, content, hash))
  {
    hide Boot, EnsureCerts, Load, LoadCerts;
    assert k != ConfigFile;
    hide CertName;
    var o := BootWithCard(files, card, alignment, hash, f);
    assert SameFile(files, o.files, k);
    EnsuredValue(o, card, card.config.value, k, hash, f);
    var after := Boot(files, Some(card), alignment, hash, f).outcome.files;
    LoadedIsStored(after, card.config.value, f, k);
    LoadedIsStored(after, card.config.value, f, OtaCa);
    ThroughEach(after, card.config.value, f, k);
    ThroughEach(after, card.config.value, f, OtaCa);
  }

  // ----- a stale certificate -----

  /** A configuration of the current version that names one certificate, for the MQTT connection. */
  function ExampleConfig(): (c: Config)
    ensures Version(c) == VERSION
  {
    VERSION + seq(267, _ => 0) + [97] + seq(256, _ => 0)
  }

  lemma {:induction false} NameOfZeros(b: seq<Byte>)
    requires b != [] && b[0] == 0
    ensures CString(b) == []
  {
  }

  lemma ExampleNames(k: FlashFile)
    ensures CertName(ExampleConfig(), k) == if k == MqttCa then [97] else []
  {
    var c := ExampleConfig();
    assert c[104..136][0] == 0 && c[399..431][0] == 0 && c[431..463][0] == 0;
    assert c[271..303][0] == 97 && c[271..303][1..][0] == 0;
    hide ExampleConfig;
    NameOfZeros(c[104..136]);
    NameOfZeros(c[399..431]);
    NameOfZeros(c[431..463]);
    NameOfZeros(c[271..303][1..]);
  }

  function ExampleFiles(stale: seq<Byte>): Files {
    map[ConfigFile := Image(ExampleConfig(), [0, 0]), MqttCa := stale]
  }

  function ExampleCard(content: seq<Byte>): Card { Card(map[[97] := content], Some(ExampleConfig())) }

  lemma ExampleInStep(hash: seq<Byte> -> seq<Byte>, stale: seq<Byte>, content: seq<Byte>)
    requires |stale| == |content| && hash(stale) == hash(content)
    ensures InStep(ExampleFiles(stale), ExampleCard(content), hash)
  {
    var c, files, card := ExampleConfig(), ExampleFiles(stale), ExampleCard(content);
    LoadSaved(c, [0, 0]);
    assert StoredConfig(files) == Success(c);
    hide Image, Load, CertName, ExampleConfig, StoredConfig;
    forall k: FlashFile | CertName(c, k) != []
      ensures CertName(c, k) in card.files && UpToDate(files, k, card.files[CertName(c, k)], hash)
    {
      ExampleNames(k);
    }
  }

  lemma ExampleLoads(stale: seq<Byte>)
    requires stale != []
    ensures LoadCerts(ExampleFiles(stale), ExampleConfig(), NO_FAULTS)
            == Loaded(None, Certs(None, None, Some(stale), Some(stale)))
  {
    hide Image, CertName, ExampleConfig;
    ExampleNames(ClientCert);
    ExampleNames(ClientKey);
    ExampleNames(MqttCa);
    ExampleNames(OtaCa);
  }

  /**
   * Whatever two files of equal size the hash cannot tell apart, there is a boot with a valid card that returns
   * ESP_OK and leaves the one on flash, and in memory, where the card has the other.
   */
  lemma HashCollisionKeepsStaleCopy(hash: seq<Byte> -> seq<Byte>, stale: seq<Byte>, content: seq<Byte>)
    returns (files: Files, card: Card)
    requires |stale| == |content| > 0 && stale != content && hash(stale) == hash(content)
    ensures card.Valid() && card.config.Some? && CertName(card.config.value, MqttCa) in card.files
    ensures card.files[CertName(card.config.value, MqttCa)] == content
    ensures var boot := Boot(files, Some(card), [0, 0], hash, NO_FAULTS);
            && boot.outcome.err.None? && MqttCa in boot.outcome.files
            && boot.outcome.files[MqttCa] == stale && boot.certs.mqttCa == Some(stale)
  {
    files, card := ExampleFiles(stale), ExampleCard(content);
    ExampleNames(MqttCa);
    ExampleInStep(hash, stale, content);
    ExampleLoads(stale);
    hide Image, CertName, ExampleConfig, Boot, InStep, LoadCerts;
    BootInStep(files, card, true, [0, 0], hash);
  }
}
