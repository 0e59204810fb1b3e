/** The catalog entities of moddb/models.go. */
module ModdbModels {
  import opened Options

  datatype Side = Client | Server | Both | UnknownSide

  /** A catalog entry; times are instants, None for a missing date. */
  datatype Mod = Mod(id: string, slug: string, name: string, authorName: string, summary: string, side: Side,
                     downloads: int, updatedAt: Option<int>, tags: seq<string>,
                     gameVersions: seq<string>, latestVersion: string)

  datatype ModDetails = ModDetails(mod: Mod, description: string)
}
