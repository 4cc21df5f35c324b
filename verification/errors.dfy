/** The exceptions the tile-store model raises, one constructor per Python exception. */
module Errors {

  datatype Error =
    | FolderError          // MBTilesFolderError: MBTILES_ROOT does not exist
    | NotFound(path: string) // MBTilesNotFoundError, carrying the last path tried
    | InvalidFormat        // landez InvalidFormatError: the file is not a readable MBTiles container
    | InvalidNumber        // ValueError from float() or int() on a metadata value
    | NoZoomLevels         // IndexError from indexing an empty zoom-level list
}
