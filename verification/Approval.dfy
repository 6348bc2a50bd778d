/** The approval rows in `config.json`: validation, upgrade to version 1, and updates. */
module Approval {
  import opened Wrappers
  import Quota

  const CATEGORIES: set<string> := {"index", "stock", "etp", "bond", "derivative", "commodity", "esg"}
  const CATEGORY_COUNT: nat := 7
  const TTL_MS := 900_000
  const ERROR_MAX_CHARACTERS: nat := 240

  datatype Verdict = Approved | Rejected | Inconclusive

  datatype FailureType =
    | Timeout | Cancelled | RateLimit | Authentication | Approval | Network | Upstream | InvalidResponse | Integrity
    | LocalState | NoData | UnknownCategory

  /** Times are canonical instants in milliseconds; `None` is text that is not one. */
  datatype Observation = Observation(
    verdict: Verdict,
    approved: Option<bool>,
    checkedAt: Option<int>,
    validUntil: Option<int>,
    credentialId: string,
    failureType: Option<FailureType>,
    error: Option<string>)

  /** A value under `serviceStatus`.  `Loose` deserialises to the same observation but is
      not how the program would print it. */
  datatype RowJson = Bound(obs: Observation) | Loose(obs: Observation) | Legacy | BadRow

  /** A top-level value of the configuration. */
  datatype Json = One | Text(text: string) | Statuses(rows: map<string, RowJson>) | Other(id: nat)

  type Root = map<string, Json>

  datatype Error = LegacyStateInvalid

  /** `Unbound`: rows from before observations were tied to a credential. */
  datatype Rows = BoundRows(rows: map<string, Observation>) | Unbound

  datatype Classified = Classified(rows: Rows, versioned: bool)

  predicate IsPrefix(part: string, text: string) { |part| <= |text| && text[..|part|] == part }

  predicate Contains(text: string, part: string) {
    exists k :: 0 <= k <= |text| && IsPrefix(part, text[k..])
  }

  lemma ContainsMeans(text: string, part: string)
    ensures Contains(text, part) <==> exists before, after :: text == before + part + after
  {
    if before, after :| text == before + part + after {
      assert text[|before|..] == part + after;
      assert IsPrefix(part, text[|before|..]);
    }
    if Contains(text, part) {
      var k :| 0 <= k <= |text| && IsPrefix(part, text[k..]);
      assert text == text[..k] + part + text[k + |part|..];
    }
  }

  /** `validate_observation`. */
  predicate ValidObservation(o: Observation, secret: Option<string>) {
    && Quota.IsFingerprint(o.credentialId)
    && o.checkedAt.Some? && o.validUntil == Some(o.checkedAt.value + TTL_MS)
    && (o.error.Some? ==> |o.error.value| <= ERROR_MAX_CHARACTERS)
    && (secret.Some? && secret.value != "" && o.error.Some? ==> !Contains(o.error.value, secret.value))
    && match o.verdict
       case Approved => o.approved == Some(true) && o.failureType.None? && o.error.None?
       case Rejected => o.approved == Some(false) && o.failureType == Some(FailureType.Approval)
       case Inconclusive => o.approved.None?
  }

  predicate IsBound(r: RowJson) { r.Bound? || r.Loose? }

  /** `classify_rows`. */
  function ClassifyRows(rows: map<string, RowJson>, secret: Option<string>, requiresBound: bool): Result<Rows, Error> {
    if exists c :: c in rows
         && (c !in CATEGORIES || rows[c].BadRow? || (IsBound(rows[c]) && !ValidObservation(rows[c].obs, secret)))
    then Failure(LegacyStateInvalid)
    else if forall c :: c in rows ==> IsBound(rows[c]) then Success(BoundRows(map c | c in rows :: rows[c].obs))
    else if (forall c :: c in rows ==> rows[c].Legacy?) && !requiresBound then Success(Unbound)
    else Failure(LegacyStateInvalid)
  }

  /** `classify_config` on a root that is an object. */
  function Classify(root: Root, secret: Option<string>): Result<Classified, Error> {
    if "version" in root && root["version"] != One then Failure(LegacyStateInvalid)
    else
      var versioned := "version" in root;
      if versioned && "apiKey" in root then Failure(LegacyStateInvalid)
      else if "serviceStatus" !in root then
        if versioned then Failure(LegacyStateInvalid) else Success(Classified(Unbound, versioned))
      else match root["serviceStatus"]
           case Statuses(rows) =>
             if |rows| > CATEGORY_COUNT then Failure(LegacyStateInvalid)
             else (match ClassifyRows(rows, secret, versioned)
                   case Success(r) => Success(Classified(r, versioned))
                   case Failure(e) => Failure(e))
           case _ => Failure(LegacyStateInvalid)
  }

  function Printed(rows: map<string, Observation>): map<string, RowJson> { map c | c in rows :: Bound(rows[c]) }

  /** `upgrade_root`. */
  function Upgrade(root: Root, rows: map<string, Observation>): Root {
    root["version" := One]["serviceStatus" := Statuses(Printed(rows))]
  }

  function RowsOf(r: Rows): map<string, Observation> { if r.BoundRows? then r.rows else map[] }

  datatype Migrated = Migrated(root: Root, changed: bool, approvals: nat)

  /** `migrate_approval_root`. */
  function MigrateRoot(root: Root, secret: Option<string>): Result<Migrated, Error> {
    match Classify(root, secret)
    case Failure(e) => Failure(e)
    case Success(c) =>
      Success(Migrated(Upgrade(root, RowsOf(c.rows)), !c.versioned,
                       if c.rows.BoundRows? && !c.versioned then |c.rows.rows| else 0))
  }

  // ---------------------------------------------------------------- reading back

  predicate ValidRows(rows: map<string, Observation>, secret: Option<string>) {
    forall c :: c in rows ==> c in CATEGORIES && ValidObservation(rows[c], secret)
  }

  lemma FewCategories(rows: map<string, Observation>)
    requires forall c :: c in rows ==> c in CATEGORIES
    ensures |rows| <= CATEGORY_COUNT
  {
    assert rows.Keys <= CATEGORIES;
    SubsetSize(rows.Keys, CATEGORIES);
    assert |rows| == |rows.Keys|;
    assert |CATEGORIES| == 7;
  }

  /** An upgraded root is accepted and yields the rows put into it. */
  lemma UpgradeReadsBack(root: Root, rows: map<string, Observation>, secret: Option<string>)
    requires ValidRows(rows, secret) && "apiKey" !in root
    ensures Classify(Upgrade(root, rows), secret) == Success(Classified(BoundRows(rows), true))
  {
    hide ValidObservation;
    var up := Upgrade(root, rows);
    var printed := Printed(rows);
    assert "apiKey" !in up && up["serviceStatus"] == Statuses(printed);
    FewCategories(rows);
    assert printed.Keys == rows.Keys;
    assert |printed| == |printed.Keys| && |rows| == |rows.Keys|;
    assert (map c | c in printed :: printed[c].obs) == rows;
  }

  lemma ClassifiedRowsAreValid(root: Root, secret: Option<string>)
    requires Classify(root, secret).Success?
    ensures ValidRows(RowsOf(Classify(root, secret).value.rows), secret)
  {
    hide ValidObservation;
  }

  /** A weaker reader accepts what one who knows the secret accepts. */
  lemma ValidWithoutSecret(rows: map<string, Observation>, secret: Option<string>)
    requires ValidRows(rows, secret)
    ensures ValidRows(rows, None)
  {}

  /** Migration is idempotent: what it produces is accepted, migrates to itself, and counts
      as unchanged; everything outside the two fields is left as it was. */
  lemma MigrationIsIdempotent(root: Root, secret: Option<string>)
    requires MigrateRoot(root, secret).Success? && "apiKey" !in root
    ensures var m := MigrateRoot(root, secret).value;
            && MigrateRoot(m.root, secret) == Success(Migrated(m.root, false, 0))
            && MigrateRoot(m.root, None) == Success(Migrated(m.root, false, 0))
            && (forall k :: k != "version" && k != "serviceStatus" ==>
                  (k in m.root <==> k in root) && (k in root ==> m.root[k] == root[k]))
            && m.changed == ("version" !in root)
  {
    ClassifiedRowsAreValid(root, secret);
    var rows := RowsOf(Classify(root, secret).value.rows);
    UpgradeReadsBack(root, rows, secret);
    ValidWithoutSecret(rows, secret);
    UpgradeReadsBack(root, rows, None);
    hide Classify, ValidRows, Printed;
    var m := Upgrade(root, rows);
    assert Upgrade(m, rows) == m;
  }

  /** Migration keeps every approval: the migrated root holds exactly the observations of
      the old one, so every status call answers as before, and their number is reported if
      they were not in a version 1 file already. */
  lemma MigrationKeepsApprovals(root: Root, secret: string)
    requires MigrateRoot(root, Some(secret)).Success? && "apiKey" !in root
    ensures Classify(root, Some(secret)).Success?
    ensures var m := MigrateRoot(root, Some(secret)).value;
            var rows := RowsOf(Classify(root, Some(secret)).value.rows);
            && Classify(m.root, Some(secret)) == Success(Classified(BoundRows(rows), true))
            && (forall f, c :: Status(m.root, secret, f, c) == Status(root, secret, f, c))
            && m.approvals == if "version" in root then 0 else |rows|
  {
    ClassifiedRowsAreValid(root, Some(secret));
    UpgradeReadsBack(root, RowsOf(Classify(root, Some(secret)).value.rows), Some(secret));
    VersionedMeans(root, Some(secret));
    hide Classify, ValidRows, Upgrade;
  }

  lemma VersionedMeans(root: Root, secret: Option<string>)
    requires Classify(root, secret).Success?
    ensures Classify(root, secret).value.versioned <==> "version" in root
    ensures !Classify(root, secret).value.rows.BoundRows? ==> |RowsOf(Classify(root, secret).value.rows)| == 0
  {}

  /** The same for a migration that knows no secret. */
  lemma MigrationKeepsRows(root: Root, secret: Option<string>)
    requires MigrateRoot(root, secret).Success? && "apiKey" !in root
    ensures Classify(MigrateRoot(root, secret).value.root, secret)
            == Success(Classified(BoundRows(RowsOf(Classify(root, secret).value.rows)), true))
  {
    ClassifiedRowsAreValid(root, secret);
    UpgradeReadsBack(root, RowsOf(Classify(root, secret).value.rows), secret);
  }

  /** What is refused: another version, a credential or rows missing in a version 1 file,
      an unknown category, an invalid row, and bound rows mixed with unbound ones. */
  lemma WhatIsRefused(root: Root, secret: Option<string>)
    ensures "version" in root && root["version"] != One ==> Classify(root, secret).Failure?
    ensures "version" in root && ("apiKey" in root || "serviceStatus" !in root) ==> Classify(root, secret).Failure?
    ensures "serviceStatus" in root && !root["serviceStatus"].Statuses? ==> Classify(root, secret).Failure?
    ensures "serviceStatus" in root && root["serviceStatus"].Statuses? ==>
              forall c, d :: c in root["serviceStatus"].rows && d in root["serviceStatus"].rows ==>
                (|| c !in {"index", "stock", "etp", "bond", "derivative", "commodity", "esg"}
                 || root["serviceStatus"].rows[c].BadRow?
                 || (root["serviceStatus"].rows[c].Legacy? && !root["serviceStatus"].rows[d].Legacy?)
                 || (root["serviceStatus"].rows[c].Legacy? && "version" in root)
                 || (!root["serviceStatus"].rows[c].Legacy? && !root["serviceStatus"].rows[c].BadRow?
                     && !ValidObservation(root["serviceStatus"].rows[c].obs, secret))) ==>
                Classify(root, secret).Failure?
  {
    hide ValidObservation;
  }

  /** The three kinds of observation that are valid, with a lifetime of fifteen minutes. */
  lemma ValidForms(o: Observation, secret: Option<string>)
    ensures ValidObservation(o, secret) <==>
              exists checked :: IsForm(o, checked)
                && (o.error.Some? ==> |o.error.value| <= 240)
                && (secret.Some? && secret.value != "" && o.error.Some? ==> !Contains(o.error.value, secret.value))
  {
    if o.checkedAt.Some? { assert IsForm(o, o.checkedAt.value) || !IsForm(o, o.checkedAt.value); }
    hide Quota.IsFingerprint, Contains;
  }

  predicate IsForm(o: Observation, checked: int) {
    && Quota.IsFingerprint(o.credentialId)
    && (|| o == Observation(Approved, Some(true), Some(checked), Some(checked + 900_000), o.credentialId, None, None)
        || o == Observation(Rejected, Some(false), Some(checked), Some(checked + 900_000), o.credentialId,
                            Some(FailureType.Approval), o.error)
        || o == Observation(Inconclusive, None, Some(checked), Some(checked + 900_000), o.credentialId,
                            o.failureType, o.error))
  }

  // ---------------------------------------------------------------- recording an observation

  /** `record_blocking` on the configuration it read under the lock. */
  function Record(root: Root, secret: string, category: string, obs: Observation): Result<Root, Error> {
    if !ValidObservation(obs, Some(secret)) then Failure(LegacyStateInvalid)
    else match Classify(root, Some(secret))
         case Failure(e) => Failure(e)
         case Success(c) =>
           if "apiKey" in root then Failure(LegacyStateInvalid)
           else Success(Upgrade(root, RowsOf(c.rows)[category := obs]))
  }

  /** `status_blocking`, up to the freshness it reports. */
  function Status(root: Root, secret: string, fingerprint: string, category: string)
    : Result<Option<Observation>, Error>
  {
    match Classify(root, Some(secret))
    case Failure(e) => Failure(e)
    case Success(c) =>
      var rows := RowsOf(c.rows);
      if category in rows && rows[category].credentialId == fingerprint then Success(Some(rows[category]))
      else Success(None)
  }

  /** An observation is recorded exactly if it is valid, the configuration is accepted, and
      no legacy credential is left in it. */
  lemma RecordsExactly(root: Root, secret: string, category: string, obs: Observation)
    ensures Record(root, secret, category, obs).Success? <==>
              (ValidObservation(obs, Some(secret)) && Classify(root, Some(secret)).Success? && "apiKey" !in root)
  {
    hide Classify, ValidObservation;
  }

  lemma RecordShape(root: Root, secret: string, category: string, obs: Observation)
    requires category in CATEGORIES && Record(root, secret, category, obs).Success?
    ensures Classify(root, Some(secret)).Success?
    ensures var rows := RowsOf(Classify(root, Some(secret)).value.rows)[category := obs];
            && Record(root, secret, category, obs).value == Upgrade(root, rows)
            && Classify(Upgrade(root, rows), Some(secret)) == Success(Classified(BoundRows(rows), true))
  {
    ClassifiedRowsAreValid(root, Some(secret));
    var rows := RowsOf(Classify(root, Some(secret)).value.rows)[category := obs];
    hide Classify, ValidObservation, Upgrade;
    assert ValidRows(rows, Some(secret));
    UpgradeReadsBack(root, rows, Some(secret));
  }

  /** A recorded observation is what the next status call reports for its category and
      credential; every other category reports what it did, and no other field of the
      configuration changes. */
  lemma RecordMerges(root: Root, secret: string, category: string, obs: Observation)
    requires category in CATEGORIES && Record(root, secret, category, obs).Success?
    ensures var r := Record(root, secret, category, obs).value;
            && Status(r, secret, obs.credentialId, category) == Success(Some(obs))
            && (forall f :: f != obs.credentialId ==> Status(r, secret, f, category) == Success(None))
            && (forall c, f :: c != category ==> Status(r, secret, f, c) == Status(root, secret, f, c))
            && (forall k :: k != "version" && k != "serviceStatus" ==>
                  (k in r <==> k in root) && (k in root ==> r[k] == root[k]))
  {
    RecordShape(root, secret, category, obs);
    var before := RowsOf(Classify(root, Some(secret)).value.rows);
    UpgradeFrame(root, before[category := obs]);
    StatusAfter(root, Upgrade(root, before[category := obs]), secret, before, category, obs);
    hide Classify, Upgrade, Record, Status;
  }

  lemma StatusAfter(root: Root, r: Root, secret: string, before: map<string, Observation>, category: string,
                    obs: Observation)
    requires Classify(root, Some(secret)).Success? && RowsOf(Classify(root, Some(secret)).value.rows) == before
    requires Classify(r, Some(secret)) == Success(Classified(BoundRows(before[category := obs]), true))
    ensures Status(r, secret, obs.credentialId, category) == Success(Some(obs))
    ensures forall f :: f != obs.credentialId ==> Status(r, secret, f, category) == Success(None)
    ensures forall c, f :: c != category ==> Status(r, secret, f, c) == Status(root, secret, f, c)
  {
    hide Classify;
  }

  lemma UpgradeFrame(root: Root, rows: map<string, Observation>)
    ensures forall k :: k != "version" && k != "serviceStatus" ==>
              (k in Upgrade(root, rows) <==> k in root) && (k in root ==> Upgrade(root, rows)[k] == root[k])
  {}
}
