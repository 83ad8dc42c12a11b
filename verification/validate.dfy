/** The document checks run before writes. The key checks themselves
    (bson_validate) belong to libbson, which is not part of this model: they
    are a `Validator` the caller supplies. */
module Validate {
  import opened Errors
  import opened Bson

  /** The bson_validate flags the helpers pass. */
  datatype ValidateFlag = Utf8Flag | EmptyKeysFlag | DotKeysFlag | DollarKeysFlag

  /** bson_validate(doc, flags, NULL), left uninterpreted. */
  type Validator = (Document, set<ValidateFlag>) -> bool

  /** insert_vflags: UTF-8, no empty keys, no '.' in keys, no leading '$'. */
  const InsertFlags: set<ValidateFlag> := {Utf8Flag, EmptyKeysFlag, DotKeysFlag, DollarKeysFlag}

  /** The flags for a legacy index document: '.' is allowed in keys. */
  const LegacyIndexFlags: set<ValidateFlag> := {Utf8Flag, EmptyKeysFlag, DollarKeysFlag}

  /** The flags for an update document: '$' keys are its operators. */
  const UpdateFlags: set<ValidateFlag> := {Utf8Flag, EmptyKeysFlag}

  /** The error every refused document reports. */
  const InvalidArg: Error := Error(CommandDomain, CommandInvalidArg)

  /** What the error message of a refusal says: which kind of document
      held invalid keys, or which update key is not an operator. */
  datatype Complaint =
    | LegacyIndexKeys
    | InsertKeys
    | ReplacementKeys
    | UpdateKeys
    | NotAnOperator(key: string)

  /** The outcome of a check: valid, or the error and what its message
      reports. */
  datatype Outcome = Valid | Invalid(error: Error, complaint: Complaint)

  /** A validator that is stricter the more flags it is given. */
  ghost predicate Monotone(validate: Validator) {
    forall doc, f, g :: f <= g && validate(doc, g) ==> validate(doc, f)
  }

  /** An update operator key: it starts with '$'. */
  predicate IsOperatorKey(key: string) {
    |key| > 0 && key[0] == '$'
  }

  /** _mongoc_validate_legacy_index. */
  function ValidateLegacyIndex(doc: Document, validate: Validator): (r: Outcome)
    ensures r.Valid? <==> validate(doc, LegacyIndexFlags)
    ensures r.Invalid? ==> r == Invalid(InvalidArg, LegacyIndexKeys)
  {
    if validate(doc, LegacyIndexFlags) then Valid else Invalid(InvalidArg, LegacyIndexKeys)
  }

  /** _mongoc_validate_new_document. */
  function ValidateNewDocument(doc: Document, validate: Validator): (r: Outcome)
    ensures r.Valid? <==> validate(doc, InsertFlags)
    ensures r.Invalid? ==> r == Invalid(InvalidArg, InsertKeys)
  {
    if validate(doc, InsertFlags) then Valid else Invalid(InvalidArg, InsertKeys)
  }

  /** _mongoc_validate_replace. */
  function ValidateReplace(doc: Document, validate: Validator): (r: Outcome)
    ensures r.Valid? <==> validate(doc, InsertFlags)
    ensures r.Invalid? ==> r == Invalid(InvalidArg, ReplacementKeys)
  {
    if validate(doc, InsertFlags) then Valid else Invalid(InvalidArg, ReplacementKeys)
  }

  /** _mongoc_validate_update. The document must pass bson_validate with
      the update flags, and then every top-level key must be an operator;
      the scan stops at the first key that is not. */
  method ValidateUpdate(update: Document, validate: Validator) returns (r: Outcome)
    ensures r.Valid? <==> validate(update, UpdateFlags)
                          && forall i :: 0 <= i < |update| ==> IsOperatorKey(update[i].key)
    ensures r.Invalid? ==> r.error == InvalidArg
    ensures r.Invalid? && !validate(update, UpdateFlags) ==> r.complaint == UpdateKeys
    ensures r.Invalid? && validate(update, UpdateFlags) ==>
      exists i :: 0 <= i < |update| && r.complaint == NotAnOperator(update[i].key) && !IsOperatorKey(update[i].key)
                  && forall j :: 0 <= j < i ==> IsOperatorKey(update[j].key)
  {
    if !validate(update, UpdateFlags) {
      return Invalid(InvalidArg, UpdateKeys);
    }
    var k := 0;
    while k < |update|
      invariant 0 <= k <= |update|
      invariant forall j :: 0 <= j < k ==> IsOperatorKey(update[j].key)
    {
      if !IsOperatorKey(update[k].key) {
        return Invalid(InvalidArg, NotAnOperator(update[k].key));
      }
      k := k + 1;
    }
    return Valid;
  }

  /** A replacement is accepted exactly when a new document would be; only
      the message differs. */
  lemma ReplaceAgreesWithInsert(doc: Document, validate: Validator)
    ensures ValidateReplace(doc, validate).Valid? <==> ValidateNewDocument(doc, validate).Valid?
  {
  }

  /** With a validator that is stricter the more flags it gets, every
      insertable document is also a valid legacy index document and passes
      the update key checks. */
  lemma InsertFlagsAreStrictest(doc: Document, validate: Validator)
    requires Monotone(validate)
    ensures ValidateNewDocument(doc, validate).Valid? ==> ValidateLegacyIndex(doc, validate).Valid?
    ensures ValidateNewDocument(doc, validate).Valid? ==> validate(doc, UpdateFlags)
  {
  }
}
