/** The configuration records created from a label (configController): a room
    type or an amenity stores the label as given next to the value derived from
    it by `generateValue`, and the handler logs a `CONFIG_CREATE` entry that
    names the label. */
module Config {
  import opened Wrappers
  import opened Strings
  import opened Slug
  import opened AuditLog

  datatype RoomType = RoomType(value: string, labelText: string)
  datatype Amenity = Amenity(value: string, labelText: string, icon: Option<string>)

  const CreateAction := "CONFIG_CREATE"
  const RoomTypeDetailsPrefix := "Created room category: "
  const AmenityDetailsPrefix := "Created amenity: "

  /** A value `generateValue` can produce: a-z, 0-9 and `_`, never `__`. */
  predicate IsSlug(v: string) {
    (forall i :: 0 <= i < |v| ==> IsSlugChar(v[i])) && NoDoubleUnderscore(v)
  }

  /** The row `createRoomType` inserts. */
  function NewRoomType(labelText: string): (r: RoomType)
    requires IsAscii(labelText)
    ensures r.labelText == labelText
    ensures r.value == GenerateValue(labelText) && IsSlug(r.value)
  {
    GenerateValueCharset(labelText);
    RoomType(GenerateValue(labelText), labelText)
  }

  /** `icon || null`: an absent or empty icon is stored as null. */
  function StoredIcon(icon: Option<string>): (r: Option<string>)
    ensures r.None? <==> icon.None? || icon.value == ""
    ensures r.Some? ==> r == icon
  {
    if icon.Some? && icon.value != "" then icon else None
  }

  /** The row `createAmenity` inserts. */
  function NewAmenity(labelText: string, icon: Option<string>): (r: Amenity)
    requires IsAscii(labelText)
    ensures r.labelText == labelText
    ensures r.value == GenerateValue(labelText) && IsSlug(r.value)
    ensures r.icon.None? <==> icon.None? || icon.value == ""
    ensures r.icon.Some? ==> r.icon == icon
  {
    GenerateValueCharset(labelText);
    Amenity(GenerateValue(labelText), labelText, StoredIcon(icon))
  }

  /** The details of the audit entry for a new room type. */
  function RoomTypeDetails(labelText: string): (d: string)
    ensures StartsWith(d, RoomTypeDetailsPrefix) && EndsWith(d, labelText)
    ensures |d| == |RoomTypeDetailsPrefix| + |labelText|
  {
    EndsWithAppend(RoomTypeDetailsPrefix, labelText);
    RoomTypeDetailsPrefix + labelText
  }

  /** The details of the audit entry for a new amenity. */
  function AmenityDetails(labelText: string): (d: string)
    ensures StartsWith(d, AmenityDetailsPrefix) && EndsWith(d, labelText)
    ensures |d| == |AmenityDetailsPrefix| + |labelText|
  {
    EndsWithAppend(AmenityDetailsPrefix, labelText);
    AmenityDetailsPrefix + labelText
  }

  /** The audit entry `createRoomType` writes: a `CONFIG_CREATE` entry naming
      the label, unless the actor is anonymous. */
  function RoomTypeLogEntry(actor: ActorHeader, labelText: string, now: int): (e: Option<LogEntry>)
    ensures e.None? <==> !Truthy(actor)
    ensures e.Some? ==> e.value.action == CreateAction && e.value.createdAt == now
    ensures e.Some? ==> StartsWith(e.value.details, RoomTypeDetailsPrefix) && EndsWith(e.value.details, labelText)
    ensures e.Some? && actor.OneActor? ==> e.value.actorId == Some(actor.value)
  {
    EntryFor(actor, CreateAction, RoomTypeDetails(labelText), now)
  }

  /** The audit entry `createAmenity` writes. */
  function AmenityLogEntry(actor: ActorHeader, labelText: string, now: int): (e: Option<LogEntry>)
    ensures e.None? <==> !Truthy(actor)
    ensures e.Some? ==> e.value.action == CreateAction && e.value.createdAt == now
    ensures e.Some? ==> StartsWith(e.value.details, AmenityDetailsPrefix) && EndsWith(e.value.details, labelText)
    ensures e.Some? && actor.OneActor? ==> e.value.actorId == Some(actor.value)
  {
    EntryFor(actor, CreateAction, AmenityDetails(labelText), now)
  }
}
