/** `game/WorldRepository.kt` over two in-memory tables: world regions and the
    world objects (trees, rocks, …) placed in them, each keyed by its row id. */
module WorldStore {
  import opened Nullable
  import opened Tables

  /** Length of the `name` column of the regions table (`varchar(100)`). */
  const REGION_NAME_MAX: int := 100

  datatype Region = Region(id: int, x: int, y: int, z: int, name: Option<string>, isWilderness: bool, isPvp: bool)

  /** A placed object; `region` is the optional reference to a region row. */
  datatype WorldObject = WorldObject(id: int, objectId: int, x: int, y: int, z: int, rotation: int,
                                     region: Option<int>, respawnTime: int)

  /** A region value the name column can hold. */
  predicate NameFits(name: Option<string>) {
    name.None? || |name.value| <= REGION_NAME_MAX
  }

  /** The region `updateRegion` leaves: each non-null argument overwrites its
      field, a null argument leaves the field as it was. */
  function PatchRegion(r: Region, name: Option<string>, isWilderness: Option<bool>, isPvp: Option<bool>): (p: Region)
    ensures p.id == r.id && p.x == r.x && p.y == r.y && p.z == r.z
    ensures p.name == OverrideNullable(name, r.name)
    ensures p.isWilderness == Override(isWilderness, r.isWilderness)
    ensures p.isPvp == Override(isPvp, r.isPvp)
  {
    r.(name := OverrideNullable(name, r.name), isWilderness := Override(isWilderness, r.isWilderness),
       isPvp := Override(isPvp, r.isPvp))
  }

  /** An update with no arguments changes nothing, repeating an update changes
      nothing more, and a name once set can never be cleared through it. */
  lemma PatchRegionLaws(r: Region, name: Option<string>, isWilderness: Option<bool>, isPvp: Option<bool>)
    ensures PatchRegion(r, None, None, None) == r
    ensures var p := PatchRegion(r, name, isWilderness, isPvp); PatchRegion(p, name, isWilderness, isPvp) == p
    ensures r.name.Some? ==> PatchRegion(r, name, isWilderness, isPvp).name.Some?
  {
  }

  /** The object `updateWorldObject` leaves: only rotation and respawn time can change. */
  function PatchObject(o: WorldObject, rotation: Option<int>, respawnTime: Option<int>): (p: WorldObject)
    ensures p.id == o.id && p.objectId == o.objectId && p.x == o.x && p.y == o.y && p.z == o.z && p.region == o.region
    ensures p.rotation == Override(rotation, o.rotation)
    ensures p.respawnTime == Override(respawnTime, o.respawnTime)
  {
    o.(rotation := Override(rotation, o.rotation), respawnTime := Override(respawnTime, o.respawnTime))
  }

  /** An object update with no arguments changes nothing, and repeating one changes nothing more. */
  lemma PatchObjectLaws(o: WorldObject, rotation: Option<int>, respawnTime: Option<int>)
    ensures PatchObject(o, None, None) == o
    ensures var p := PatchObject(o, rotation, respawnTime); PatchObject(p, rotation, respawnTime) == p
  {
  }

  class WorldRepository {
    /** Whether the database accepts transactions. */
    var available: bool
    var regions: map<int, Region>
    var nextRegionId: int
    var objects: map<int, WorldObject>
    var nextObjectId: int

    /** Rows are stored under their own positive ids, below the next serial
        value; names fit their column; an object's region reference names an
        existing region (the foreign key). */
    ghost predicate Valid()
      reads this
    {
      && nextRegionId >= 1 && nextObjectId >= 1
      && (forall k :: k in regions ==> 1 <= k < nextRegionId && regions[k].id == k && NameFits(regions[k].name))
      && (forall k :: k in objects ==> 1 <= k < nextObjectId && objects[k].id == k)
      && (forall k :: k in objects && objects[k].region.Some? ==> objects[k].region.value in regions)
    }

    constructor ()
      ensures Valid() && available && regions == map[] && objects == map[]
    {
      available := true;
      regions, nextRegionId := map[], 1;
      objects, nextObjectId := map[], 1;
    }

    // -------------------------------------------------------------------------
    // Regions

    /** Whether some world object references the region. */
    predicate Referenced(regionId: int)
      reads this
    {
      exists k :: k in objects && objects[k].region == Some(regionId)
    }

    /** The region with that id, or null. */
    function FindRegionById(id: int): (r: Option<Region>)
      reads this
      ensures r.Some? <==> available && id in regions
      ensures r.Some? ==> r.value == regions[id]
    {
      if available && id in regions then Some(regions[id]) else None
    }

    /** Every region, in id order. */
    function GetAllRegions(): (rs: seq<Region>)
      requires Valid()
      reads this
      ensures forall g :: g in rs <==> available && g in regions.Values
      ensures forall i, j :: 0 <= i < j < |rs| ==> rs[i].id < rs[j].id
    {
      if !available then [] else Select(regions, (g: Region) => true, nextRegionId)
    }

    /** The first region (lowest id) at exactly (x, y, z), or null. */
    function FindRegionByCoordinates(x: int, y: int, z: int := 0): (r: Option<Region>)
      requires Valid()
      reads this
      ensures r.Some? ==> r.value in regions.Values && r.value.x == x && r.value.y == y && r.value.z == z
      ensures r.None? <==> !available || forall k :: k in regions ==> !(regions[k].x == x && regions[k].y == y && regions[k].z == z)
      ensures r.Some? ==> forall k :: k in regions && regions[k].x == x && regions[k].y == y && regions[k].z == z ==> r.value.id <= k
    {
      if !available then None
      else
        var found := Select(regions, (g: Region) => g.x == x && g.y == y && g.z == z, nextRegionId);
        if |found| == 0 then None else Some(found[0])
    }

    /** Inserts a region with the given values; z, name and both flags take
        their defaults when omitted. Null when the database refuses the row. */
    method CreateRegion(x: int, y: int, z: int := 0, name: Option<string> := None,
                        isWilderness: bool := false, isPvp: bool := false) returns (r: Option<Region>)
      requires Valid()
      modifies this`regions, this`nextRegionId
      ensures Valid()
      ensures r.Some? <==> available && NameFits(name)
      ensures r.Some? ==> r.value == Region(r.value.id, x, y, z, name, isWilderness, isPvp)
      ensures r.Some? ==> r.value.id !in old(regions) && regions == old(regions)[r.value.id := r.value]
      ensures r.Some? ==> FindRegionById(r.value.id) == r && FindRegionByCoordinates(x, y, z).Some?
      ensures r.None? ==> regions == old(regions)
    {
      r := None;
      if available && NameFits(name) {
        var row := Region(nextRegionId, x, y, z, name, isWilderness, isPvp);
        regions := regions[nextRegionId := row];
        nextRegionId := nextRegionId + 1;
        r := Some(row);
        assert row.id in regions;
      }
    }

    /** Overwrites the non-null arguments of an existing region; false, with
        nothing changed, when the id is missing. */
    method UpdateRegion(id: int, name: Option<string> := None, isWilderness: Option<bool> := None,
                        isPvp: Option<bool> := None) returns (ok: bool)
      requires Valid()
      modifies this`regions
      ensures Valid()
      ensures ok <==> available && id in old(regions) && NameFits(name)
      ensures ok ==> regions == old(regions)[id := PatchRegion(old(regions)[id], name, isWilderness, isPvp)]
      ensures !ok ==> regions == old(regions)
    {
      ok := false;
      if !available || id !in regions || !NameFits(name) {
        return;
      }
      var region := regions[id];
      if name.Some? {
        region := region.(name := name);
      }
      if isWilderness.Some? {
        region := region.(isWilderness := isWilderness.value);
      }
      if isPvp.Some? {
        region := region.(isPvp := isPvp.value);
      }
      regions := regions[id := region];
      ok := true;
    }

    /** Deletes a region; false when the id is missing, and also when a world
        object still references it (the reference has no cascading delete). */
    method DeleteRegion(id: int) returns (ok: bool)
      requires Valid()
      modifies this`regions
      ensures Valid()
      ensures ok <==> available && id in old(regions) && !Referenced(id)
      ensures ok ==> regions == old(regions) - {id} && FindRegionById(id).None?
      ensures !ok ==> regions == old(regions)
    {
      ok := false;
      if available && id in regions && !Referenced(id) {
        regions := regions - {id};
        ok := true;
      }
    }

    // -------------------------------------------------------------------------
    // World objects

    /** The object with that id, or null. */
    function FindWorldObjectById(id: int): (o: Option<WorldObject>)
      reads this
      ensures o.Some? <==> available && id in objects
      ensures o.Some? ==> o.value == objects[id]
    {
      if available && id in objects then Some(objects[id]) else None
    }

    /** Every world object, in id order. */
    function GetAllWorldObjects(): (os: seq<WorldObject>)
      requires Valid()
      reads this
      ensures forall o :: o in os <==> available && o in objects.Values
      ensures forall i, j :: 0 <= i < j < |os| ==> os[i].id < os[j].id
    {
      if !available then [] else Select(objects, (o: WorldObject) => true, nextObjectId)
    }

    /** Exactly the objects at (x, y, z), in id order. */
    function FindWorldObjectsByCoordinates(x: int, y: int, z: int := 0): (os: seq<WorldObject>)
      requires Valid()
      reads this
      ensures forall o :: o in os <==> available && o in objects.Values && o.x == x && o.y == y && o.z == z
      ensures forall i, j :: 0 <= i < j < |os| ==> os[i].id < os[j].id
    {
      if !available then [] else Select(objects, (o: WorldObject) => o.x == x && o.y == y && o.z == z, nextObjectId)
    }

    /** Exactly the objects that reference the region, in id order. */
    function FindWorldObjectsByRegion(regionId: int): (os: seq<WorldObject>)
      requires Valid()
      reads this
      ensures forall o :: o in os <==> available && o in objects.Values && o.region == Some(regionId)
      ensures forall i, j :: 0 <= i < j < |os| ==> os[i].id < os[j].id
    {
      if !available then [] else Select(objects, (o: WorldObject) => o.region == Some(regionId), nextObjectId)
    }

    /** Inserts a world object; z, rotation and respawn time default to 0. The
        region reference is set only when `regionId` is given and names an
        existing region, and is null otherwise. */
    method CreateWorldObject(objectId: int, x: int, y: int, z: int := 0, rotation: int := 0,
                             regionId: Option<int> := None, respawnTime: int := 0) returns (o: Option<WorldObject>)
      requires Valid()
      modifies this`objects, this`nextObjectId
      ensures Valid()
      ensures o.Some? <==> available
      ensures o.Some? ==> o.value == WorldObject(o.value.id, objectId, x, y, z, rotation,
                                                  if regionId.Some? && regionId.value in regions then regionId else None,
                                                  respawnTime)
      ensures o.Some? ==> o.value.id !in old(objects) && objects == old(objects)[o.value.id := o.value]
      ensures o.Some? ==> FindWorldObjectById(o.value.id) == o && o.value in FindWorldObjectsByCoordinates(x, y, z)
      ensures o.Some? && o.value.region.Some? ==> o.value in FindWorldObjectsByRegion(o.value.region.value)
      ensures o.None? ==> objects == old(objects)
    {
      o := None;
      if available {
        var region := if regionId.Some? && regionId.value in regions then regionId else None;
        var row := WorldObject(nextObjectId, objectId, x, y, z, rotation, region, respawnTime);
        objects := objects[nextObjectId := row];
        nextObjectId := nextObjectId + 1;
        o := Some(row);
        assert row.id in objects;
      }
    }

    /** Overwrites the non-null rotation and respawn time of an existing
        object; false, with nothing changed, when the id is missing. */
    method UpdateWorldObject(id: int, rotation: Option<int> := None, respawnTime: Option<int> := None) returns (ok: bool)
      requires Valid()
      modifies this`objects
      ensures Valid()
      ensures ok <==> available && id in old(objects)
      ensures ok ==> objects == old(objects)[id := PatchObject(old(objects)[id], rotation, respawnTime)]
      ensures !ok ==> objects == old(objects)
    {
      ok := false;
      if !available || id !in objects {
        return;
      }
      var worldObject := objects[id];
      if rotation.Some? {
        worldObject := worldObject.(rotation := rotation.value);
      }
      if respawnTime.Some? {
        worldObject := worldObject.(respawnTime := respawnTime.value);
      }
      objects := objects[id := worldObject];
      ok := true;
    }

    /** Deletes a world object; false when the id is missing. */
    method DeleteWorldObject(id: int) returns (ok: bool)
      requires Valid()
      modifies this`objects
      ensures Valid()
      ensures ok <==> available && id in old(objects)
      ensures ok ==> objects == old(objects) - {id} && FindWorldObjectById(id).None?
      ensures !ok ==> objects == old(objects)
    {
      ok := false;
      if available && id in objects {
        objects := objects - {id};
        ok := true;
      }
    }
  }
}
