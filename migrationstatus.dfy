/** typedapi/types/enums/migrationstatus: the text codec of the feature
    migration status. */
module MigrationStatus {
  import opened Wrappers
  import Text

  datatype MigrationStatus = MigrationStatus(name: string)

  const NoMigrationNeeded := MigrationStatus("NO_MIGRATION_NEEDED")
  const MigrationNeeded := MigrationStatus("MIGRATION_NEEDED")
  const InProgress := MigrationStatus("IN_PROGRESS")
  const Error := MigrationStatus("ERROR")

  predicate IsConstant(m: MigrationStatus) {
    m in {NoMigrationNeeded, MigrationNeeded, InProgress, Error}
  }

  /** String: the name. */
  function String(m: MigrationStatus): (s: string)
    ensures MigrationStatus(s) == m
  {
    m.name
  }

  /** MarshalText: the name, and never an error. */
  function MarshalText(m: MigrationStatus): (r: (string, Option<Wrappers.Error>))
    ensures r.1.None?
    ensures r.0 == String(m)
  {
    (String(m), None)
  }

  /** UnmarshalText as written: the lower-cased key is compared with the
      upper-case names; an unmatched text is kept as it is; never an error. */
  function UnmarshalText(text: string): (r: (MigrationStatus, Option<Wrappers.Error>))
    ensures r.1.None?
  {
    var key := Text.EnumKey(text);
    var m :=
      if key == "NO_MIGRATION_NEEDED" then NoMigrationNeeded
      else if key == "MIGRATION_NEEDED" then MigrationNeeded
      else if key == "IN_PROGRESS" then InProgress
      else if key == "ERROR" then Error
      else MigrationStatus(text);
    (m, None)
  }

  /** No case of the switch can match, because each name has an upper-case
      letter and the key has none: every text decodes to itself. */
  lemma NoCaseMatches(text: string)
    ensures UnmarshalText(text) == (MigrationStatus(text), None)
  {
    var key := Text.EnumKey(text);
    assert Text.IsUpperAscii("NO_MIGRATION_NEEDED"[0]) && Text.IsUpperAscii("MIGRATION_NEEDED"[0]);
    assert Text.IsUpperAscii("IN_PROGRESS"[0]) && Text.IsUpperAscii("ERROR"[0]);
    assert |key| > 0 ==> !Text.IsUpperAscii(key[0]);
  }

  /** Marshalling then unmarshalling gives the status back, for every
      status (and so for the four constants). */
  lemma RoundTrip(m: MigrationStatus)
    ensures UnmarshalText(MarshalText(m).0) == (m, None)
  {
    NoCaseMatches(m.name);
  }

  /** The input that shows it: a lower-case name is not recognised. */
  lemma LowerCaseNotRecognised()
    ensures UnmarshalText("in_progress").0 == MigrationStatus("in_progress")
    ensures UnmarshalText("in_progress").0 != InProgress
  {
    NoCaseMatches("in_progress");
  }

  /** UnmarshalText as evidently intended, the way the sibling enum codecs
      match: the key against the lower-cased names. */
  function UnmarshalTextCorrected(text: string): (r: (MigrationStatus, Option<Wrappers.Error>))
    ensures r.1.None?
    ensures Text.EnumKey(text) == "no_migration_needed" ==> r.0 == NoMigrationNeeded
    ensures Text.EnumKey(text) == "migration_needed" ==> r.0 == MigrationNeeded
    ensures Text.EnumKey(text) == "in_progress" ==> r.0 == InProgress
    ensures Text.EnumKey(text) == "error" ==> r.0 == Error
    ensures !IsConstant(r.0) ==> r.0 == MigrationStatus(text)
    ensures Text.EnumKey(text) !in {"no_migration_needed", "migration_needed", "in_progress", "error"} ==>
      r.0 == MigrationStatus(text)
  {
    var key := Text.EnumKey(text);
    var m :=
      if key == "no_migration_needed" then NoMigrationNeeded
      else if key == "migration_needed" then MigrationNeeded
      else if key == "in_progress" then InProgress
      else if key == "error" then Error
      else MigrationStatus(text);
    (m, None)
  }

  /** Each constant's name lower-cases to its case label. */
  lemma ConstantKeys()
    ensures Text.EnumKey(NoMigrationNeeded.name) == "no_migration_needed"
    ensures Text.EnumKey(MigrationNeeded.name) == "migration_needed"
    ensures Text.EnumKey(InProgress.name) == "in_progress"
    ensures Text.EnumKey(Error.name) == "error"
  {
    NoMigrationNeededKey();
    MigrationNeededKey();
    InProgressKey();
    ErrorKey();
  }

  lemma NoMigrationNeededKey() ensures Text.EnumKey("NO_MIGRATION_NEEDED") == "no_migration_needed" {
    Text.EnumKeyOf("NO_MIGRATION_NEEDED", "no_migration_needed");
  }

  lemma MigrationNeededKey() ensures Text.EnumKey("MIGRATION_NEEDED") == "migration_needed" {
    Text.EnumKeyOf("MIGRATION_NEEDED", "migration_needed");
  }

  lemma InProgressKey() ensures Text.EnumKey("IN_PROGRESS") == "in_progress" {
    Text.EnumKeyOf("IN_PROGRESS", "in_progress");
  }

  lemma ErrorKey() ensures Text.EnumKey("ERROR") == "error" {
    Text.EnumKeyOf("ERROR", "error");
  }

  /** Every constant survives a round trip through the corrected decoder. */
  lemma RoundTripCorrected(m: MigrationStatus)
    requires IsConstant(m)
    ensures UnmarshalTextCorrected(MarshalText(m).0) == (m, None)
  {
    ConstantKeys();
  }

  /** Decoding is stable: decoding the encoding of a decoded text gives the
      same status. */
  lemma UnmarshalCorrectedIdempotent(text: string)
    ensures var m := UnmarshalTextCorrected(text).0;
      UnmarshalTextCorrected(MarshalText(m).0).0 == m
  {
    var m := UnmarshalTextCorrected(text).0;
    if IsConstant(m) {
      RoundTripCorrected(m);
    }
  }
}
