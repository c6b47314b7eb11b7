/**
 * The file model (src/sdk/models/file.rs): the `FileUpdates` builder sent
 * with an update, and the wire names of `ItemStatus`.
 *
 * The source has two `FileUpdates` structs with the same two fields and the
 * same builders: this one borrows its strings, the one in
 * src/sdk/operations/file.rs owns them. As values they are the same thing,
 * and both are modelled by the datatype below.
 */
module FileModel {
  import opened Wrappers
  import SerdeRename

  /**
   * The fields of a file an update may change. `None` is a flag that was not
   * given; serde writes it into the request body as JSON `null`.
   */
  datatype FileUpdates = FileUpdates(description: Option<string>, name: Option<string>)

  /** `FileUpdates::new`: an update that changes nothing. */
  function NewUpdates(): (u: FileUpdates)
    ensures u.name.None? && u.description.None?
  {
    FileUpdates(None, None)
  }

  /** `FileUpdates::name`: sets the new name and keeps the description. */
  function WithName(u: FileUpdates, name: string): (v: FileUpdates)
    ensures v.name == Some(name)
    ensures v.description == u.description
  {
    u.(name := Some(name))
  }

  /** `FileUpdates::description`: sets the new description and keeps the name. */
  function WithDescription(u: FileUpdates, description: string): (v: FileUpdates)
    ensures v.description == Some(description)
    ensures v.name == u.name
  {
    u.(description := Some(description))
  }

  /** Setting a field twice keeps the last value. */
  lemma LastSetWins(u: FileUpdates, a: string, b: string)
    ensures WithName(WithName(u, a), b) == WithName(u, b)
    ensures WithDescription(WithDescription(u, a), b) == WithDescription(u, b)
  {
  }

  /** Setting the two fields commutes. */
  lemma SettersCommute(u: FileUpdates, name: string, description: string)
    ensures WithName(WithDescription(u, description), name) == WithDescription(WithName(u, name), description)
  {
  }

  /** Every update value is reached from `new` by the builders. */
  lemma BuildersReachEveryUpdate(u: FileUpdates)
    ensures var v := if u.name.Some? then WithName(NewUpdates(), u.name.value) else NewUpdates();
            (if u.description.Some? then WithDescription(v, u.description.value) else v) == u
  {
  }

  /** `ItemStatus`. */
  datatype ItemStatus = Active | Trashed | Deleted

  /** The Rust identifier of each variant, which serde renames. */
  function ItemStatusVariant(s: ItemStatus): string
  {
    match s
    case Active => "Active"
    case Trashed => "Trashed"
    case Deleted => "Deleted"
  }

  /** The wire name of a status. */
  function EncodeItemStatus(s: ItemStatus): (name: string)
    ensures name == SerdeRename.Lowercase(ItemStatusVariant(s))
  {
    match s
    case Active => "active"
    case Trashed => "trashed"
    case Deleted => "deleted"
  }

  /** Reading a status from its wire name; any other string is rejected. */
  function DecodeItemStatus(name: string): (r: Option<ItemStatus>)
    ensures r.Some? <==> name in {"active", "trashed", "deleted"}
    ensures r.Some? ==> EncodeItemStatus(r.value) == name
  {
    if name == "active" then Some(Active)
    else if name == "trashed" then Some(Trashed)
    else if name == "deleted" then Some(Deleted)
    else None
  }

  /** Decoding inverts encoding, so the encoding is injective. */
  lemma ItemStatusRoundTrip(s: ItemStatus, t: ItemStatus)
    ensures DecodeItemStatus(EncodeItemStatus(s)) == Some(s)
    ensures EncodeItemStatus(s) == EncodeItemStatus(t) ==> s == t
  {
  }
}
