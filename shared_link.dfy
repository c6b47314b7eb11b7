/**
 * The wire names of the shared-link enums (src/sdk/models/shared_link.rs):
 * `SharedLinkAccess` is renamed "lowercase", `SharedLinkPermission`
 * "snake_case".
 */
module SharedLink {
  import opened Wrappers
  import SerdeRename

  datatype SharedLinkAccess = Open | Company | Collaborators

  datatype SharedLinkPermission = CanDownload | CanPreview

  /** The Rust identifier of each access variant, which serde renames. */
  function AccessVariant(a: SharedLinkAccess): string
  {
    match a
    case Open => "Open"
    case Company => "Company"
    case Collaborators => "Collaborators"
  }

  /** The Rust identifier of each permission variant, which serde renames. */
  function PermissionVariant(p: SharedLinkPermission): string
  {
    match p
    case CanDownload => "CanDownload"
    case CanPreview => "CanPreview"
  }

  /** The wire name of an access level. */
  function EncodeAccess(a: SharedLinkAccess): (name: string)
    ensures name == SerdeRename.Lowercase(AccessVariant(a))
  {
    match a
    case Open => "open"
    case Company => "company"
    case Collaborators => "collaborators"
  }

  /** Reading an access level; any other string is rejected. */
  function DecodeAccess(name: string): (r: Option<SharedLinkAccess>)
    ensures r.Some? <==> name in {"open", "company", "collaborators"}
    ensures r.Some? ==> EncodeAccess(r.value) == name
  {
    if name == "open" then Some(Open)
    else if name == "company" then Some(Company)
    else if name == "collaborators" then Some(Collaborators)
    else None
  }

  /** serde's snake_case rule applied to `CanDownload`. */
  lemma CanDownloadFollowsSnakeCase()
    ensures SerdeRename.SnakeCase("CanDownload") == "can_download"
  {
    SerdeRename.SnakeCaseOfTwoWords('C', "an", 'D', "ownload");
    assert "CanDownload" == ['C'] + "an" + ['D'] + "ownload";
    assert SerdeRename.AsciiLower('C') == 'c' && SerdeRename.AsciiLower('D') == 'd';
    assert ['c'] + "an" + "_" + ['d'] + "ownload" == "can_download";
  }

  /** serde's snake_case rule applied to `CanPreview`. */
  lemma CanPreviewFollowsSnakeCase()
    ensures SerdeRename.SnakeCase("CanPreview") == "can_preview"
  {
    SerdeRename.SnakeCaseOfTwoWords('C', "an", 'P', "review");
    assert "CanPreview" == ['C'] + "an" + ['P'] + "review";
    assert SerdeRename.AsciiLower('C') == 'c' && SerdeRename.AsciiLower('P') == 'p';
    assert ['c'] + "an" + "_" + ['p'] + "review" == "can_preview";
  }

  /** The wire name of a permission. */
  function EncodePermission(p: SharedLinkPermission): (name: string)
    ensures name == SerdeRename.SnakeCase(PermissionVariant(p))
  {
    match p
    case CanDownload => CanDownloadFollowsSnakeCase(); "can_download"
    case CanPreview => CanPreviewFollowsSnakeCase(); "can_preview"
  }

  /** Reading a permission; any other string is rejected. */
  function DecodePermission(name: string): (r: Option<SharedLinkPermission>)
    ensures r.Some? <==> name in {"can_download", "can_preview"}
    ensures r.Some? ==> EncodePermission(r.value) == name
  {
    if name == "can_download" then Some(CanDownload)
    else if name == "can_preview" then Some(CanPreview)
    else None
  }

  /** Decoding inverts encoding for both enums, so both encodings are injective. */
  lemma RoundTrips(a: SharedLinkAccess, b: SharedLinkAccess, p: SharedLinkPermission, q: SharedLinkPermission)
    ensures DecodeAccess(EncodeAccess(a)) == Some(a)
    ensures EncodeAccess(a) == EncodeAccess(b) ==> a == b
    ensures DecodePermission(EncodePermission(p)) == Some(p)
    ensures EncodePermission(p) == EncodePermission(q) ==> p == q
  {
  }
}
