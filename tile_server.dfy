/**
 * The tile request handler of the offline map server. A GET request names a
 * tile as /{zoom}/{column}/{row} with rows counted from the top; the tiles
 * live in an MBTiles archive whose rows are counted from the bottom. The
 * handler either answers 200 with the PNG bytes, answers 404, or raises
 * before answering (a segment that is not an integer, a negative zoom used
 * as a shift count, a missing archive file, a key SQLite cannot bind).
 */
module TileServer {
  import opened Options
  import opened TileAddress
  import opened PathParsing

  type Byte = b: int | 0 <= b < 256

  /** Primary key of the archive's `tiles` table: zoom_level, tile_column, tile_row (TMS rows). */
  datatype TileKey = TileKey(zoom: int, column: int, row: int)

  /** The archive's tile table: at most one blob per key. */
  type TileTable = map<TileKey, seq<Byte>>

  /** Why a 404 was sent: the two causes share the status but differ inside. */
  datatype Miss = WrongArity | NoSuchTile

  /** What one call of the GET handler does. */
  datatype Outcome =
    | Ok(body: seq<Byte>, mediaType: string)  // 200, Content-Type header, body written
    | NotFound(cause: Miss)                    // send_error(404)
    | ParseError                               // int() raised ValueError
    | NegativeShift                            // `1 << z` raised ValueError
    | ArchiveMissing                           // FileNotFoundError raised
    | KeyOverflow                              // binding the key raised OverflowError

  const PngMediaType: string := "image/png"

  /** SQLite's INTEGER range: signed 64-bit. */
  const MinSqlInteger: int := -0x8000_0000_0000_0000
  const MaxSqlInteger: int := 0x7FFF_FFFF_FFFF_FFFF

  /** Whether sqlite3 can bind `v` as a query parameter. */
  predicate SqlInteger(v: int)
  {
    MinSqlInteger <= v <= MaxSqlInteger
  }

  /** Whether every column of the key can be bound. */
  predicate Bindable(k: TileKey)
  {
    SqlInteger(k.zoom) && SqlInteger(k.column) && SqlInteger(k.row)
  }

  /** The request path as the handler decomposes it into segments. */
  function Segments(path: string): (parts: seq<string>)
    ensures |parts| >= 1 && SeparatorFree(parts, '/')
    ensures Join(parts, '/') == Strip(path, '/')
  {
    Split(Strip(path, '/'), '/')
  }

  /** A path read as three integers, in the client's top-origin numbering. */
  datatype Request = BadArity | BadInteger | Coords(z: int, x: int, y: int)

  function ParseRequest(path: string): (r: Request)
    ensures r.BadArity? <==> |Segments(path)| != 3
    ensures r.BadInteger? <==>
              |Segments(path)| == 3 && exists i :: 0 <= i < 3 && ParseInt(Segments(path)[i]).None?
    ensures r.Coords? ==>
              ParseInt(Segments(path)[0]) == Some(r.z)
              && ParseInt(Segments(path)[1]) == Some(r.x)
              && ParseInt(Segments(path)[2]) == Some(r.y)
  {
    var parts := Segments(path);
    if |parts| != 3 then BadArity
    else
      match (ParseInt(parts[0]), ParseInt(parts[1]), ParseInt(parts[2]))
      case (Some(z), Some(x), Some(y)) => Coords(z, x, y)
      case _ => BadInteger
  }

  /** The archive key a well-formed request is looked up under. */
  function StorageKey(z: nat, x: int, y: int): (k: TileKey)
    ensures k.zoom == z && k.column == x
    ensures FlipRow(z, k.row) == y
  {
    TileKey(z, x, FlipRow(z, y))
  }

  /**
   * One GET: decompose the path, parse three integers, flip the row, check
   * the archive exists, bind the key, look it up.
   */
  function HandleGet(path: string, archivePresent: bool, tiles: TileTable): (r: Outcome)
    ensures r == NotFound(WrongArity) <==> |Segments(path)| != 3
    ensures r.ParseError? <==> ParseRequest(path).BadInteger?
    ensures r.NegativeShift? <==> ParseRequest(path).Coords? && ParseRequest(path).z < 0
    ensures r.ArchiveMissing? <==>
              ParseRequest(path).Coords? && ParseRequest(path).z >= 0 && !archivePresent
    ensures r.KeyOverflow? <==>
              && ParseRequest(path).Coords? && ParseRequest(path).z >= 0 && archivePresent
              && !Bindable(StorageKey(ParseRequest(path).z, ParseRequest(path).x, ParseRequest(path).y))
    ensures r.Ok? <==>
              && ParseRequest(path).Coords? && ParseRequest(path).z >= 0 && archivePresent
              && Bindable(StorageKey(ParseRequest(path).z, ParseRequest(path).x, ParseRequest(path).y))
              && StorageKey(ParseRequest(path).z, ParseRequest(path).x, ParseRequest(path).y) in tiles
    ensures r.Ok? ==>
              && r.mediaType == PngMediaType
              && r.body == tiles[StorageKey(ParseRequest(path).z, ParseRequest(path).x, ParseRequest(path).y)]
  {
    match ParseRequest(path)
    case BadArity => NotFound(WrongArity)
    case BadInteger => ParseError
    case Coords(z, x, y) =>
      if z < 0 then NegativeShift
      else
        var key := StorageKey(z, x, y);
        if !archivePresent then ArchiveMissing
        else if !Bindable(key) then KeyOverflow
        else if key in tiles then Ok(tiles[key], PngMediaType)
        else NotFound(NoSuchTile)
  }

  /**
   * The HTTP status the client receives, or None when the handler raised
   * and the server dropped the connection without a response.
   */
  function StatusCode(o: Outcome): (r: Option<int>)
    ensures r.None? <==> (o.ParseError? || o.NegativeShift? || o.ArchiveMissing? || o.KeyOverflow?)
    ensures o.NotFound? ==> r == Some(404)
    ensures r == Some(200) <==> o.Ok?
  {
    match o
    case Ok(_, _) => Some(200)
    case NotFound(_) => Some(404)
    case _ => None
  }

  // ---------------------------------------------------------------- properties

  /** A path of the wrong shape is answered 404 without consulting the archive at all. */
  lemma WrongArityIgnoresArchive(path: string, a1: bool, t1: TileTable, a2: bool, t2: TileTable)
    requires |Segments(path)| != 3
    ensures HandleGet(path, a1, t1) == HandleGet(path, a2, t2) == NotFound(WrongArity)
    ensures StatusCode(HandleGet(path, a1, t1)) == Some(404)
  {
  }

  /** A non-integer segment makes the handler raise: the client gets no 404, and no lookup happens. */
  lemma NonIntegerRaises(path: string, i: nat, archivePresent: bool, tiles: TileTable)
    requires |Segments(path)| == 3 && i < 3 && ParseInt(Segments(path)[i]).None?
    ensures HandleGet(path, archivePresent, tiles) == ParseError
    ensures StatusCode(HandleGet(path, archivePresent, tiles)).None?
  {
  }

  /** Leading and trailing slashes never change what the handler does. */
  lemma SlashPaddingIrrelevant(path: string, i: nat, j: nat, archivePresent: bool, tiles: TileTable)
    ensures HandleGet(Repeat('/', i) + path + Repeat('/', j), archivePresent, tiles)
         == HandleGet(path, archivePresent, tiles)
  {
    StripIgnoresPadding(path, '/', i, j);
  }

  /** So "/3/1/5" and "//3/1/5/" are handled alike. */
  lemma SlashPaddingExample(p1: string, p2: string, archivePresent: bool, tiles: TileTable)
    requires p1 == "//3/1/5/" && p2 == "/3/1/5"
    ensures HandleGet(p1, archivePresent, tiles) == HandleGet(p2, archivePresent, tiles)
  {
    var core := "3/1/5";
    assert p1 == Repeat('/', 2) + core + Repeat('/', 1);
    assert p2 == Repeat('/', 1) + core + Repeat('/', 0);
    SlashPaddingIrrelevant(core, 2, 1, archivePresent, tiles);
    SlashPaddingIrrelevant(core, 1, 0, archivePresent, tiles);
  }

  /** With a well-formed path and no archive file, the handler raises whatever the tiles are. */
  lemma ArchiveCheckedBeforeLookup(path: string, t1: TileTable, t2: TileTable)
    requires ParseRequest(path).Coords? && ParseRequest(path).z >= 0
    ensures HandleGet(path, false, t1) == HandleGet(path, false, t2) == ArchiveMissing
    ensures StatusCode(HandleGet(path, false, t1)).None?
  {
  }

  /**
   * The tile table is consulted at one key only: zoom and column as
   * requested, row flipped. Two tables that agree there give the same answer.
   */
  lemma LookupUsesFlippedKeyOnly(path: string, archivePresent: bool, t1: TileTable, t2: TileTable)
    requires ParseRequest(path).Coords? && ParseRequest(path).z >= 0
    requires
      var r := ParseRequest(path);
      var k := TileKey(r.z, r.x, FlipRow(r.z, r.y));
      (k in t1 <==> k in t2) && (k in t1 ==> t1[k] == t2[k])
    ensures HandleGet(path, archivePresent, t1) == HandleGet(path, archivePresent, t2)
  {
  }

  /**
   * With the archive present: a key outside SQLite's range raises; a found
   * tile is answered 200 with image/png and exactly the stored blob; any
   * other key is answered 404.
   */
  lemma HitOrMiss(path: string, tiles: TileTable)
    requires ParseRequest(path).Coords? && ParseRequest(path).z >= 0
    ensures
      var r := ParseRequest(path);
      var k := TileKey(r.z, r.x, FlipRow(r.z, r.y));
      HandleGet(path, true, tiles)
        == if !Bindable(k) then KeyOverflow
           else if k in tiles then Ok(tiles[k], "image/png")
           else NotFound(NoSuchTile)
  {
  }

  /** The status is 404 exactly for a wrong shape or a bindable key absent from an existing archive. */
  lemma NotFoundCauses(path: string, archivePresent: bool, tiles: TileTable)
    ensures StatusCode(HandleGet(path, archivePresent, tiles)) == Some(404) <==>
              || |Segments(path)| != 3
              || (&& ParseRequest(path).Coords? && ParseRequest(path).z >= 0 && archivePresent
                  && Bindable(StorageKey(ParseRequest(path).z, ParseRequest(path).x, ParseRequest(path).y))
                  && StorageKey(ParseRequest(path).z, ParseRequest(path).x, ParseRequest(path).y) !in tiles)
  {
  }

  /** A column of 2^63 cannot be bound, so the request raises instead of missing. */
  lemma OverflowingColumnRaises(path: string, z: nat, y: int, tiles: TileTable)
    requires ParseRequest(path) == Coords(z, MaxSqlInteger + 1, y)
    ensures HandleGet(path, true, tiles) == KeyOverflow
    ensures StatusCode(HandleGet(path, true, tiles)).None?
  {
  }

  lemma JoinThree(a: string, b: string, c: string)
    ensures Join([a, b, c], '/') == a + "/" + b + "/" + c
  {
    var parts := [a, b, c];
    assert parts[1..] == [b, c] && parts[1..][1..] == [c];
    assert Join([b, c], '/') == b + "/" + c;
  }

  /** Three slash-free segments written as "/a/b/c" decompose back into those segments. */
  lemma SegmentsOfThree(a: string, b: string, c: string)
    requires '/' !in a && '/' !in b && '/' !in c
    requires |a| > 0 && |c| > 0
    ensures Segments("/" + a + "/" + b + "/" + c) == [a, b, c]
  {
    var body := a + "/" + b + "/" + c;
    TrimmedThree(a, b, c);
    StripOneLeading(body);
    SplitThree(a, b, c);
    LeadingSlashThree(a, b, c);
    SegmentsAfterSlash(body);
  }

  lemma LeadingSlashThree(a: string, b: string, c: string)
    ensures "/" + a + "/" + b + "/" + c == "/" + (a + "/" + b + "/" + c)
  {
  }

  lemma SegmentsAfterSlash(body: string)
    requires Strip("/" + body, '/') == body
    ensures Segments("/" + body) == Split(body, '/')
  {
  }

  lemma TrimmedThree(a: string, b: string, c: string)
    requires '/' !in a && '/' !in c
    requires |a| > 0 && |c| > 0
    ensures
      var body := a + "/" + b + "/" + c;
      body[0] != '/' && body[|body| - 1] != '/'
  {
    var body := a + "/" + b + "/" + c;
    assert body[0] == a[0];
    assert body[|body| - 1] == c[|c| - 1];
  }

  lemma SplitThree(a: string, b: string, c: string)
    requires '/' !in a && '/' !in b && '/' !in c
    ensures Split(a + "/" + b + "/" + c, '/') == [a, b, c]
  {
    JoinThree(a, b, c);
    assert SeparatorFree([a, b, c], '/');
    SplitJoin([a, b, c], '/');
  }

  lemma StripOneLeading(body: string)
    requires body == [] || (body[0] != '/' && body[|body| - 1] != '/')
    ensures Strip("/" + body, '/') == body
  {
    assert "/" + body == Repeat('/', 1) + body + Repeat('/', 0);
    StripIgnoresPadding(body, '/', 1, 0);
    StripKeepsTrimmed(body, '/');
  }

  /**
   * A request for any integers written canonically: it raises when a
   * coordinate has too many digits for `int()` or the key cannot be bound,
   * and otherwise names the tile stored under the flipped row.
   */
  lemma CanonicalRequest(z: nat, x: int, y: int, tiles: TileTable)
    ensures
      var k := TileKey(z, x, FlipRow(z, y));
      HandleGet("/" + ShowInt(z) + "/" + ShowInt(x) + "/" + ShowInt(y), true, tiles)
        == if !(WithinDigitLimit(z) && WithinDigitLimit(x) && WithinDigitLimit(y)) then ParseError
           else if !Bindable(k) then KeyOverflow
           else if k in tiles then Ok(tiles[k], "image/png")
           else NotFound(NoSuchTile)
  {
    ShowIntShape(z);
    ShowIntShape(x);
    ShowIntShape(y);
    SegmentsOfThree(ShowInt(z), ShowInt(x), ShowInt(y));
    ParseShowInt(z);
    ParseShowInt(x);
    ParseShowInt(y);
  }

  lemma ShowIntShape(n: int)
    ensures '/' !in ShowInt(n) && |ShowInt(n)| > 0
  {
  }

  /**
   * An archive holding only tile (3, 1, 2). Row 5 counted from the top is
   * row 2 counted from the bottom, so "/3/1/5" is served that tile.
   */
  lemma HitExample(path: string, img: seq<Byte>)
    requires path == "/3/1/5"
    ensures HandleGet(path, true, map[TileKey(3, 1, 2) := img]) == Ok(img, "image/png")
  {
    var tiles := map[TileKey(3, 1, 2) := img];
    SpelledPath(path, 3, 1, 5, "3", "1", "5");
    assert FlipRow(3, 5) == 2 by {
      assert Pow2(3) == 8;
    }
    CanonicalOutcome(path, 3, 1, 5, tiles);
  }

  /** Row 0 counted from the top is row 7 counted from the bottom, which is not stored. */
  lemma MissExample(path: string, img: seq<Byte>)
    requires path == "/3/1/0"
    ensures HandleGet(path, true, map[TileKey(3, 1, 2) := img]) == NotFound(NoSuchTile)
  {
    var tiles := map[TileKey(3, 1, 2) := img];
    SpelledPath(path, 3, 1, 0, "3", "1", "0");
    assert FlipRow(3, 0) == 7 by {
      assert Pow2(3) == 8;
    }
    CanonicalOutcome(path, 3, 1, 0, tiles);
  }

  lemma CanonicalOutcome(path: string, z: nat, x: int, y: int, tiles: TileTable)
    requires path == "/" + ShowInt(z) + "/" + ShowInt(x) + "/" + ShowInt(y)
    requires WithinDigitLimit(z) && WithinDigitLimit(x) && WithinDigitLimit(y)
    requires Bindable(TileKey(z, x, FlipRow(z, y)))
    ensures
      var k := TileKey(z, x, FlipRow(z, y));
      HandleGet(path, true, tiles) == if k in tiles then Ok(tiles[k], "image/png") else NotFound(NoSuchTile)
  {
    CanonicalRequest(z, x, y, tiles);
  }

  lemma SpelledPath(path: string, z: int, x: int, y: int, sz: string, sx: string, sy: string)
    requires 0 <= z < 10 && 0 <= x < 10 && 0 <= y < 10
    requires sz == [DigitChar(z)] && sx == [DigitChar(x)] && sy == [DigitChar(y)]
    requires path == "/" + sz + "/" + sx + "/" + sy
    ensures path == "/" + ShowInt(z) + "/" + ShowInt(x) + "/" + ShowInt(y)
    ensures WithinDigitLimit(z) && WithinDigitLimit(x) && WithinDigitLimit(y)
  {
    SingleDigit(z);
    SingleDigit(x);
    SingleDigit(y);
  }

  lemma SingleDigit(d: int)
    requires 0 <= d < 10
    ensures ShowInt(d) == ShowNat(d) == [DigitChar(d)] && WithinDigitLimit(d)
  {
  }
}
