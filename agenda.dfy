/**
 * The agenda lifecycle hooks: before an agenda entry is created or updated,
 * its `type` decides which of the two relations `spectacle` and
 * `plus_qu_une_piece` must be filled once the write is applied, and which
 * must be empty.
 */
module AgendaLifecycle {
  import opened Wrappers

  /** A JSON value as the hook receives it; a missing key reads as
      `Undefined`. Objects are their own keys. */
  datatype Json =
    | Undefined
    | Null
    | Bool(b: bool)
    | Number(n: int)
    | Str(s: string)
    | Arr(items: seq<Json>)
    | Obj(fields: map<string, Json>)

  /** JavaScript truthiness. */
  predicate Truthy(v: Json) {
    match v
    case Undefined => false
    case Null => false
    case Bool(b) => b
    case Number(n) => n != 0
    case Str(s) => s != ""
    case Arr(_) => true
    case Obj(_) => true
  }

  /** `v[k]`: a missing key, or a key of anything but an object, reads as
      undefined. */
  function Field(v: Json, k: string): (r: Json)
    ensures !v.Obj? || k !in v.fields ==> r == Undefined
  {
    if v.Obj? && k in v.fields then v.fields[k] else Undefined
  }

  /** `k in v`, for an object. */
  predicate Has(v: Json, k: string) {
    v.Obj? && k in v.fields
  }

  /** A non-empty array. */
  predicate NonEmptyArray(v: Json) {
    v.Arr? && |v.items| > 0
  }

  /** An empty array. */
  predicate EmptyArray(v: Json) {
    v.Arr? && |v.items| == 0
  }

  datatype FinalState = Filled | Empty

  /** The state of the relation chosen by the existing value, for payloads
      that leave it as is. */
  function Kept(existingValue: Json): FinalState {
    if Truthy(existingValue) then Filled else Empty
  }

  /** The primitive payloads: an id is filled, null or undefined keeps the
      existing state, anything else is empty. */
  function PrimitiveState(dataValue: Json, existingValue: Json): FinalState {
    if dataValue.Number? then Filled
    else if dataValue.Null? || dataValue.Undefined? then Kept(existingValue)
    else Empty
  }

  /** getFinalState: the state of a relation once the write payload
      `dataValue` is applied over `existingValue`. A truthy object is read
      first as a `set` payload, then as a `connect`/`disconnect` payload; an
      object that is neither falls through to the primitive tests, which
      then give empty. */
  function GetFinalState(dataValue: Json, existingValue: Json): FinalState {
    if Truthy(dataValue) && (dataValue.Obj? || dataValue.Arr?) then
      if Has(dataValue, "set") && Field(dataValue, "set").Arr? then
        if NonEmptyArray(Field(dataValue, "set")) then Filled else Empty
      else if Has(dataValue, "connect") then
        var connect, disconnect := Field(dataValue, "connect"), Field(dataValue, "disconnect");
        if NonEmptyArray(connect) then Filled
        else if NonEmptyArray(disconnect) then Empty
        else if EmptyArray(connect) && EmptyArray(disconnect) then Kept(existingValue)
        else PrimitiveState(dataValue, existingValue)
      else PrimitiveState(dataValue, existingValue)
    else PrimitiveState(dataValue, existingValue)
  }

  /** isEmpty, which validateAgenda defines but never calls: null, undefined
      and the empty string are empty; so is an object whose `connect` and
      `disconnect` are both empty arrays, and an object (or array) with no
      keys. */
  function IsEmpty(value: Json): bool {
    if value.Null? || value.Undefined? || value == Str("") then true
    else if value.Obj? || value.Arr? then
      if Field(value, "connect").Arr? && Field(value, "disconnect").Arr? then
        EmptyArray(Field(value, "connect")) && EmptyArray(Field(value, "disconnect"))
      else if (value.Obj? && |value.fields| == 0) || (value.Arr? && |value.items| == 0) then true
      else false
    else false
  }

  /** The fields of the write the hook reads. */
  datatype AgendaData = AgendaData(kind: Json, spectacle: Json, plusQuUnePiece: Json)

  /** The stored entry, with both relations populated. */
  datatype AgendaRecord = AgendaRecord(spectacle: Json, plusQuUnePiece: Json)

  /** The four ApplicationErrors validateAgenda throws. */
  datatype Rejection =
    | SpectacleRequired
    | PlusQuUnePieceMustBeEmpty
    | PlusQuUnePieceRequired
    | SpectacleMustBeEmpty

  datatype Validation = Accepted | Rejected(reason: Rejection)

  /** `existing?.spectacle`. */
  function ExistingSpectacle(existing: Option<AgendaRecord>): Json {
    if existing.Some? then existing.value.spectacle else Undefined
  }

  /** `existing?.plus_qu_une_piece`. */
  function ExistingPlusQuUnePiece(existing: Option<AgendaRecord>): Json {
    if existing.Some? then existing.value.plusQuUnePiece else Undefined
  }

  const SpectacleType := Str("spectacle")
  const PlusQuUnePieceType := Str("plus_qu_une_piece")

  /** validateAgenda: without a type the write is left to the platform; a
      `spectacle` agenda needs a filled spectacle and an empty
      plus_qu_une_piece, a `plus_qu_une_piece` agenda the reverse, and any
      other type is accepted. */
  function ValidateAgenda(data: AgendaData, existing: Option<AgendaRecord>): Validation {
    if !Truthy(data.kind) then Accepted
    else
      var spectacle := GetFinalState(data.spectacle, ExistingSpectacle(existing));
      var piece := GetFinalState(data.plusQuUnePiece, ExistingPlusQuUnePiece(existing));
      if data.kind == SpectacleType then
        if spectacle != Filled then Rejected(SpectacleRequired)
        else if piece == Filled then Rejected(PlusQuUnePieceMustBeEmpty)
        else Accepted
      else if data.kind == PlusQuUnePieceType then
        if piece != Filled then Rejected(PlusQuUnePieceRequired)
        else if spectacle == Filled then Rejected(SpectacleMustBeEmpty)
        else Accepted
      else Accepted
  }

  /** beforeCreate: there is no stored entry yet. */
  function BeforeCreate(data: AgendaData): Validation {
    ValidateAgenda(data, None)
  }

  /** beforeUpdate, with the stored entry it looks up (None when there is
      none) taken as an input. */
  function BeforeUpdate(data: AgendaData, existing: Option<AgendaRecord>): Validation {
    ValidateAgenda(data, existing)
  }

  // ---- properties ----

  /** Without a truthy type, any write is accepted, whatever its relations. */
  lemma NoTypeAccepted(data: AgendaData, existing: Option<AgendaRecord>)
    requires !Truthy(data.kind)
    ensures ValidateAgenda(data, existing) == Accepted
  {
  }

  /** A `set` array decides alone: filled iff non-empty, whatever else the
      payload holds and whatever the stored value. */
  lemma SetPayloadDecides(dataValue: Json, existingValue: Json)
    requires Has(dataValue, "set") && Field(dataValue, "set").Arr?
    ensures GetFinalState(dataValue, existingValue) == if |Field(dataValue, "set").items| > 0 then Filled else Empty
  {
  }

  /** A `connect` payload without a `set` array: a non-empty `connect` means
      filled even when `disconnect` is non-empty; otherwise a non-empty
      `disconnect` means empty; both arrays empty keep the stored state; any
      other shape is empty. */
  lemma ConnectPayload(dataValue: Json, existingValue: Json)
    requires Has(dataValue, "connect") && !(Has(dataValue, "set") && Field(dataValue, "set").Arr?)
    ensures var connect, disconnect := Field(dataValue, "connect"), Field(dataValue, "disconnect");
      GetFinalState(dataValue, existingValue) ==
        if NonEmptyArray(connect) then Filled
        else if NonEmptyArray(disconnect) then Empty
        else if EmptyArray(connect) && EmptyArray(disconnect) then Kept(existingValue)
        else Empty
  {
  }

  /** `connect: []` without a `disconnect` array is empty, even over a
      stored relation. */
  lemma ConnectWithoutDisconnectEmpty(existingValue: Json)
    ensures GetFinalState(Obj(map["connect" := Arr([])]), existingValue) == Empty
  {
    var v := Obj(map["connect" := Arr([])]);
    assert Has(v, "connect") && !Has(v, "set") && !Has(v, "disconnect");
  }

  /** The payloads that are not objects: an id is filled, null or undefined
      keeps the stored state, and a string, a boolean or an array (even of
      ids) is empty. */
  lemma PrimitivePayload(dataValue: Json, existingValue: Json)
    requires !dataValue.Obj?
    ensures GetFinalState(dataValue, existingValue) ==
      if dataValue.Number? then Filled
      else if dataValue.Null? || dataValue.Undefined? then Kept(existingValue)
      else Empty
  {
  }

  /** An object with neither a `set` array nor a `connect` key is empty. */
  lemma OtherObjectEmpty(dataValue: Json, existingValue: Json)
    requires dataValue.Obj? && !Has(dataValue, "connect") && !(Has(dataValue, "set") && Field(dataValue, "set").Arr?)
    ensures GetFinalState(dataValue, existingValue) == Empty
  {
  }

  /** The payloads whose final state depends on the stored value: null,
      undefined, and a `connect` payload (without a `set` array) whose
      `connect` and `disconnect` are both empty arrays. */
  predicate KeepsStored(dataValue: Json) {
    dataValue.Null? || dataValue.Undefined?
    || (Has(dataValue, "connect") && !(Has(dataValue, "set") && Field(dataValue, "set").Arr?)
        && EmptyArray(Field(dataValue, "connect")) && EmptyArray(Field(dataValue, "disconnect")))
  }

  /** The stored value matters exactly for the payloads that keep it, and
      for those the relation is filled iff the stored value is truthy; every
      other payload decides on its own. */
  lemma StoredValueMatters(dataValue: Json, existingValue: Json, other: Json)
    ensures KeepsStored(dataValue) ==> GetFinalState(dataValue, existingValue) == Kept(existingValue)
    ensures !KeepsStored(dataValue) ==> GetFinalState(dataValue, existingValue) == GetFinalState(dataValue, other)
  {
    if Has(dataValue, "connect") && !(Has(dataValue, "set") && Field(dataValue, "set").Arr?) {
      ConnectPayload(dataValue, existingValue);
      ConnectPayload(dataValue, other);
    }
  }

  /** A `spectacle` agenda is accepted iff its spectacle ends up filled and
      its plus_qu_une_piece does not; the first failing check names the
      rejection. */
  lemma SpectacleTypeRule(data: AgendaData, existing: Option<AgendaRecord>)
    requires data.kind == SpectacleType
    ensures var spectacle := GetFinalState(data.spectacle, ExistingSpectacle(existing));
      var piece := GetFinalState(data.plusQuUnePiece, ExistingPlusQuUnePiece(existing));
      (ValidateAgenda(data, existing) == Accepted <==> spectacle == Filled && piece == Empty)
      && (spectacle == Empty ==> ValidateAgenda(data, existing) == Rejected(SpectacleRequired))
      && (spectacle == Filled && piece == Filled ==> ValidateAgenda(data, existing) == Rejected(PlusQuUnePieceMustBeEmpty))
  {
  }

  /** A `plus_qu_une_piece` agenda, with the roles swapped. */
  lemma PlusQuUnePieceTypeRule(data: AgendaData, existing: Option<AgendaRecord>)
    requires data.kind == PlusQuUnePieceType
    ensures var spectacle := GetFinalState(data.spectacle, ExistingSpectacle(existing));
      var piece := GetFinalState(data.plusQuUnePiece, ExistingPlusQuUnePiece(existing));
      (ValidateAgenda(data, existing) == Accepted <==> piece == Filled && spectacle == Empty)
      && (piece == Empty ==> ValidateAgenda(data, existing) == Rejected(PlusQuUnePieceRequired))
      && (piece == Filled && spectacle == Filled ==> ValidateAgenda(data, existing) == Rejected(SpectacleMustBeEmpty))
  {
  }

  /** Any other truthy type is accepted, whatever its relations. */
  lemma OtherTypeAccepted(data: AgendaData, existing: Option<AgendaRecord>)
    requires data.kind != SpectacleType && data.kind != PlusQuUnePieceType
    ensures ValidateAgenda(data, existing) == Accepted
  {
  }

  /** Mutual exclusion: an accepted `spectacle` or `plus_qu_une_piece`
      agenda ends up with exactly one of the two relations filled, the one
      its type names. */
  lemma AcceptedIsExclusive(data: AgendaData, existing: Option<AgendaRecord>)
    requires data.kind == SpectacleType || data.kind == PlusQuUnePieceType
    requires ValidateAgenda(data, existing) == Accepted
    ensures var spectacle := GetFinalState(data.spectacle, ExistingSpectacle(existing));
      var piece := GetFinalState(data.plusQuUnePiece, ExistingPlusQuUnePiece(existing));
      (spectacle == Filled) != (piece == Filled)
      && (spectacle == Filled <==> data.kind == SpectacleType)
  {
    if data.kind == SpectacleType {
      SpectacleTypeRule(data, existing);
    } else {
      PlusQuUnePieceTypeRule(data, existing);
    }
  }

  /** On create nothing is stored, so an omitted relation is empty: a
      `spectacle` agenda created without a spectacle is rejected. */
  lemma CreateWithoutSpectacleRejected(data: AgendaData)
    requires data.kind == SpectacleType
    requires data.spectacle.Undefined? || data.spectacle.Null?
    ensures BeforeCreate(data) == Rejected(SpectacleRequired)
  {
  }

  /** On update, an omitted relation keeps the stored one: an update of a
      `spectacle` agenda that leaves both relations out is accepted iff the
      stored spectacle is set and the stored plus_qu_une_piece is not. */
  lemma UpdateKeepsStored(kind: Json, stored: AgendaRecord)
    requires kind == SpectacleType
    ensures BeforeUpdate(AgendaData(kind, Undefined, Undefined), Some(stored)) == Accepted
        <==> Truthy(stored.spectacle) && !Truthy(stored.plusQuUnePiece)
  {
  }

  /** What isEmpty calls empty, in general: never a truthy primitive; among
      the falsy values, all but `false` and `0`; an array exactly when it
      has no items (an array has no `connect` key); and an object that does
      not carry both `connect` and `disconnect` arrays exactly when it has
      no keys. */
  lemma IsEmptyCases(v: Json)
    ensures IsEmpty(v) ==> !Truthy(v) || v.Obj? || v.Arr?
    ensures !Truthy(v) ==> (IsEmpty(v) <==> !v.Bool? && !v.Number?)
    ensures v.Arr? ==> (IsEmpty(v) <==> |v.items| == 0)
    ensures v.Obj? && !(Field(v, "connect").Arr? && Field(v, "disconnect").Arr?) ==> (IsEmpty(v) <==> |v.fields| == 0)
    ensures v.Obj? && Field(v, "connect").Arr? && Field(v, "disconnect").Arr? ==>
      (IsEmpty(v) <==> EmptyArray(Field(v, "connect")) && EmptyArray(Field(v, "disconnect")))
  {
  }

  /** isEmpty and getFinalState agree on plain empty values with nothing
      stored, but not in general: a payload that sets one spectacle with
      empty `connect`/`disconnect` arrays is empty for isEmpty and filled for
      getFinalState, and an array of ids is not empty for isEmpty but empty
      for getFinalState. */
  lemma IsEmptyVersusFinalState()
    ensures IsEmpty(Null) && GetFinalState(Null, Undefined) == Empty
    ensures IsEmpty(Obj(map[])) && GetFinalState(Obj(map[]), Undefined) == Empty
    ensures var both := Obj(map["set" := Arr([Number(1)]), "connect" := Arr([]), "disconnect" := Arr([])]);
      IsEmpty(both) && GetFinalState(both, Undefined) == Filled
    ensures !IsEmpty(Arr([Number(1)])) && GetFinalState(Arr([Number(1)]), Undefined) == Empty
  {
    var both := Obj(map["set" := Arr([Number(1)]), "connect" := Arr([]), "disconnect" := Arr([])]);
    assert Has(both, "set") && Field(both, "set") == Arr([Number(1)]);
    assert Field(both, "connect") == Arr([]) && Field(both, "disconnect") == Arr([]);
  }
}
