# Verified models of parts of the X server and libpciaccess

The project models, in Dafny, the most intricate self-contained logic of two source trees and proves what it is for.

From the X server's extension directory (`xorg-server/Xext`):

- **Xinerama images** (`Raster`, `Xinerama`, `GetImage`, with `Bits`). One logical screen is simulated by several
  real ones. An image read is stitched together from pieces of a region, down to shifted bit copies at one bit per
  pixel, and sent in strips. The results are compared with what the one big screen shows.
- **Xinerama requests** (`Masks`, `ValueLists`, `Requests`, `Entries`, `Points`, `Hakmem`, `Numbers`). A request is replayed on
  every screen, with single value-list entries, ids and coordinates rewritten. `Hakmem` proves that the server's
  branch-free `Ones()` counts bits, which is what finds a value-list entry.
- **The hash table** (`HashTable`, `GenericHash`). Chained buckets, a doubling rehash, and the roll-back when the
  doubling has no memory. It refines a finite map.
- **Shared memory** (`Shm`, `ShmSizes`). Who uses a segment, over any run of requests; and which bytes of a segment
  the image requests touch.
- **Sleeping clients** (`SleepQueue`) and **generated authorizations** (`Security`). A time-ordered queue, and counted
  users with a timer, both as state machines whose invariant every operation keeps.

From libpciaccess (`pciaccess/src`):

- **Configuration space** (`PciConfig`). The chunked read with configuration mechanism #1 (section 3.2.2.3.2 of the
  PCI Local Bus Specification 3.0) and the NetBSD read loop, both against the bytes of the configuration space.
- **The bus scan** (`PciScan`, `PciTopology`, `PciRepeats`, `PciRegisters`). The recursive scan against an independent counting of the ways through
  the bridges, and exactly when it ends.
- **Names** (`VendorTrie`, `PciNames`, `CString`). The 16-way trie of vendor ids, and the lazily filled name cache
  against a direct scan of the file.
- **The VGA arbiter's text protocol** (`VgaArb`, `CString`). Parsing undoes printing.

`CTypes` holds C's integer ranges and an option type, and `Arith` the linear treatment of products that keeps the
proofs about rows and columns cheap.

Objects that the sources update in place are classes with a `Valid()` predicate. Linked lists are sequences of object
references, so that the identity of a record survives its moves. Calls into code that is not modelled appear as
parameters: whether an allocation, a lookup or an access check succeeds, what a screen shows, into which rectangles
the region code cuts a region, the clock.

## Where the code does not do what it might be expected to

Each point is proved in the member named, with the exact condition under which the expectation does hold.

- The reply to a Xinerama GetImage announces its length through an `int`. It announces what follows it exactly below
  2^31 bytes, and again in the last 2^31 bytes below 2^34, which no image of up to 32767 pixels a side reaches
  (`GetImage.ReplyUnits`, `GetImage.AnnouncedBelow`). For 32767 x 16385 pixels of four bytes, 2147549180 bytes follow
  a reply that announces 15032451068 (`GetImage.ReplyTooLong`).
- Where more than one bit makes a pixel the buffer of that request is not cleared. A pixel on no screen repeats the one
  a strip above it, and in the first strip it is what the memory held (`GetImage.FixedPixel`). The pixels depend on
  the screens alone exactly if the whole first strip lies on them (`GetImage.AllFixedIff`).
- A range whose last chunk has three bytes (for instance registers 0 to 2) cannot be read with mechanism #1, although
  every register of it can (`PciConfig.Conf1Succeeds`).
- The NetBSD loop casts the register to 32 bits: from offset 2^32 on it asks for the low registers again, where
  mechanism #1 refuses (`PciConfig.CastBytes`, `PciConfig.NetbsdRead`).
- The bus scan goes on for ever exactly if it goes through a chain of bridges that comes back to a bus on it, as with
  a bridge whose secondary bus number was never set. A bridge it goes through is one that is set up after all before
  it on its bus: a set-up that fails earlier ends the scan (`PciTopology.EndlessIffLoop`,
  `PciTopology.EndlessIffBridgesLoop`, `PciTopology.SelfBridgeNeverEnds`). A scan lists a function twice exactly if it
  lists two different bridges to one bus with something on it (`PciRepeats.ScannedOnce`). Where no set-up fails, that
  is if two such bridges can be reached (`PciTopology.ListedOnce`, and `PciTopology.ListedTwice` with such a machine;
  with a set-up that fails, `PciRepeats.OnceAfterFailure`).
- Doubling the hash table reverses the order of records with one key, so a lookup among duplicates can change its
  answer (`HashTable.DoublingAnswer`), as it does when one key is added 257 times (`HashTable.DuplicatesReversed`).
  Under distinct keys it cannot.
- `find_vendor_name` cuts a vendor id to 16 bits, so a wide id can be answered with another vendor's name
  (`PciNames.CutVendor`, `PciNames.WideVendorMisnamed`, `PciNames.OneVendorMisnamed`). Its comment says that the
  subvendor's name is returned when a subvendor is given; the code looks at the vendor id alone, so that
  `pci_get_strings` returns the same name twice (`PciNames.Names.GetStrings`). Where listed vendors differ in name,
  that is the subvendor's name exactly if the ids are equal in their low 16 bits or neither is listed
  (`PciNames.SubvendorNamed`); a file of any two vendors of different names gives a wrong answer
  (`PciNames.SubvendorMisnamed`).
- A VGA count of ten digits loses its last digit (`VgaArb.CountRoundTrip`). The test of the count, an `int`, against
  `LONG_MAX` cannot succeed where `long` has 64 bits; it has no counterpart in the model.
- The direct path of ShmPutImage passes the total width together with a left padding of `srcX`. For the XY formats it
  is the shortcut it is meant to be only for `srcX == 0` (`ShmSizes.ShortcutIff`, `ShmSizes.ShortcutPaintsMore`), and
  what it reads lies in the segment exactly when the rows above the box and the padded rows of every plane end there
  (`ShmSizes.ReadsInSegment`). An accepted request for one row of 32 columns reads behind a segment of four bytes, and
  stays in one of eight, although it leaves the four bytes that were checked (`ShmSizes.DirectBehindSegment`). Against
  the checked image the condition is that of `ShmSizes.DirectInside`.
- The length of a ZPixmap ShmGetImage is a product of two `int`s: it is the true one exactly below 2^31
  (`ShmSizes.ImageLengthIff`). The check is then right; from 2^31 bytes on it accepts every offset in the segment that
  makes up for the negative length. An accepted write lies in a segment of less than 2^32 bytes exactly when its image
  is below 2^31 bytes (`ShmSizes.ImageWriteInside`). The largest image is accepted at the end of a segment more than
  16383 times smaller (`ShmSizes.LargestImageAccepted`). The unsigned product of ShmCreatePixmap is always the true
  one (`ShmSizes.PixmapInside`).
- The sleep handlers recognise a wrap of the 32-bit clock by a difference of half a period, where UpdateCurrentTime
  compares the clock values: they find the true time exactly when the two agree (`SleepQueue.HandlerTime`).
- A sleep takes the limit off the server's wait, which then lasts until something else wakes it, exactly when the time
  left has half a clock period or more over whole periods; otherwise the wait is cut to what is left over whole
  periods, which is the time left below half a period (`SleepQueue.DelayForEver`, `SleepQueue.DelayIsTimeLeft`), and
  five milliseconds with a period and five left (`SleepQueue.DelayPastPeriod`).
- The delays of an authorization's timer add up to its timeout, but TimerSet reads a delay as a signed number and runs
  a timer with 2^31 milliseconds or more at once: no delay is cut short exactly if the timeout is at most 2147483
  seconds (`Security.NoneRunsAtOnce`). Beyond that the first start stops the server in an assertion. Where assertions
  are compiled out the authorization is freed at once or waits for the last of its delays alone
  (`Security.TimerSet`, `Security.Server.GenerateAuthorization`, `Security.TooLong`).

## Model

| member | source | states |
|---|---|---|
| `Raster.CopyBits` | xorg-server/Xext/panoramiX.c:1123-1136 | ORs every source bit to its place 8 * bytes further by the shift, for any shift, and changes no other bit of the destination |
| `Raster.CopyRow` | xorg-server/Xext/panoramiX.c:1253-1271 | one row: the whole bytes and the leftover bits, carried into the next byte when they cross it, join the row and nothing else changes |
| `Raster.CopyIsMerge` | xorg-server/Xext/panoramiX.c:1256-1257 | the memcpy taken for shift 0 is the same as ORing, because the target bits were clear |
| `Raster.MaskEdges` | xorg-server/Xext/panoramiX.c:1245-1251 | afterwards the last byte of every scratch row holds no bits beyond the leftover, and all image pixels are as before |
| `Raster.MergedPixel` | xorg-server/Xext/panoramiX.c:1253-1271 | read back pixel by pixel, a merged row holds the scratch pixels inside the run and the old pixels everywhere else |
| `Raster.CopyBitBox` | xorg-server/Xext/panoramiX.c:1235-1272 | scratch bit (c, r) lands on image bit (x0 + c, y0 + r) for the whole box; all other image bits are untouched |
| `Raster.CopyByteBox` | xorg-server/Xext/panoramiX.c:1273-1283 | the same for whole bytes per pixel |
| `Xinerama.GrabBox` | xorg-server/Xext/panoramiX.c:1209-1285 | one piece read into reused scratch memory and copied: exactly the piece's pixels become the screen's |
| `Xinerama.GrabScreen` | xorg-server/Xext/panoramiX.c:1204-1285 | all pieces of the region taken from a screen, in whatever rectangles it is cut |
| `Xinerama.ScreenAdded` | xorg-server/Xext/panoramiX.c:1287-1288 | removing the grabbed region before the next screen keeps what is assembled in order |
| `Xinerama.ScreenContains` | xorg-server/Xext/panoramiX.c:1192-1200 | a screen that contains the source box finishes the image, because overlapping screens show equal pixels |
| `Xinerama.NothingRemains` | xorg-server/Xext/panoramiX.c:1288-1289 | stopping early is right once no source pixel remains |
| `Xinerama.DriverPixel` | xorg-server/Xext/panoramiX.c:1193-1199 | what is assumed of a driver: which frame-buffer pixel each pixel of its image is |
| `Xinerama.ContainsExactly` | xorg-server/Xext/panoramiX.c:1186-1189 | for boxes with points in them the three answers are exact |
| `Xinerama.XineramaGetImageData` | xorg-server/Xext/panoramiX.c:1141-1298 | every output pixel on some screen is the pixel of the big screen, every other one is untouched, for any screens, source box and rectangles; a window's pixels are read at its drawable's position on the first screen, the root's at its own coordinates, each in the coordinates of the screen that shows it |
| `Xinerama.ScreenPixels` | xorg-server/Xext/panoramiX.c:1158-1167 | where the image of a window, and of the root, lies on every screen |
| `Masks.OnesWithin` | xorg-server/Xext/panoramiXprocs.c:2036-2037 | counting the bits up to and including a plane |
| `Masks.PlaneCount` | xorg-server/Xext/panoramiXprocs.c:2073-2075 | the descending plane loop takes exactly Ones(planemask & (plane \| (plane - 1))) planes |
| `Masks.PlaneMember` | xorg-server/Xext/panoramiXprocs.c:2073-2075 | they are exactly the requested planes at or below the first one |
| `Masks.PlanesDescend` | xorg-server/Xext/panoramiXprocs.c:2073-2075 | they come from the highest to the lowest, none twice |
| `GetImage.LinesPerBuf` | xorg-server/Xext/panoramiXprocs.c:2043-2051 | a strip has at least one line and at most all of them, and more than one only within the buffer size |
| `GetImage.SendStrips` | xorg-server/Xext/panoramiXprocs.c:2060-2070 | the strips end, never overfill the buffer, and joined they are the whole image; what no screen covers in it repeats the strip above |
| `GetImage.SendPlanes` | xorg-server/Xext/panoramiXprocs.c:2072-2093 | one whole image per requested plane, in descending order, joined in the stream |
| `GetImage.PanoramiXGetImage` | xorg-server/Xext/panoramiXprocs.c:1941-2098 | which requests are refused, and why; what an accepted one is sent lies on the big screen and shows it, for ZPixmap and plane by plane for XYPixmap; the reply announces its length exactly if it is below 2^31 bytes or one of the last below 2^34 |
| `GetImage.CheckOutcomes` | xorg-server/Xext/panoramiXprocs.c:1959-2010 | which requests pass, and exactly which get which error: BadMatch for an unrealized window and for a box off the big screen or outside the window with its border |
| `GetImage.WindowRead` | xorg-server/Xext/panoramiXprocs.c:1986-2010 | what a sent image shows of a window, and of the root, in the coordinates of each screen |
| `GetImage.ReplyUnits` | xorg-server/include/misc.h:205-209 | a long passed as an int: the field holds the low 30 bits of the number of units with the highest repeated above, which is the number exactly in two ranges |
| `GetImage.AnnouncedBelow` | xorg-server/Xext/panoramiXprocs.c:2027-2040 | for up to 32767 pixels a side the reply is right exactly if the image is shorter than 2^31 bytes |
| `GetImage.ReplyTooLong` | xorg-server/Xext/panoramiXprocs.c:2027-2040 | 32767 x 16384 pixels of four bytes are announced rightly; with one line more the reply announces about seven times as much |
| `GetImage.FixedPixel` | xorg-server/Xext/panoramiXprocs.c:2052-2070 | a pixel is the same whatever the buffer held if it, or one whole strips above it, is on a screen; otherwise it is what the buffer held |
| `GetImage.AllFixedIff` | xorg-server/Xext/panoramiXprocs.c:2060-2070 | no pixel depends on the buffer's memory exactly if the whole first strip is on the screens |
| `Hakmem.HakmemCounts` | xorg-server/dix/devices.c:1968-1976 | shifts, masks and one remainder count the set bits of every 32-bit value |
| `Hakmem.HakmemIsOnes` | xorg-server/dix/devices.c:1968-1976 | the result is that of clearing the lowest set bit until none is left |
| `ValueLists.PositionReads` | xorg-server/Xext/panoramiXprocs.c:87-88 | Ones(mask & (bit - 1)) is inside the list and is the entry that belongs to the bit |
| `ValueLists.PositionsDiffer` | xorg-server/Xext/panoramiXprocs.c:84-117 | different set bits have different entries |
| `ValueLists.PositionWrites` | xorg-server/Xext/panoramiXprocs.c:133-141 | writing that entry changes what is read for its bit and for no other |
| `Requests.ChangeGC` | xorg-server/Xext/panoramiXprocs.c:830-900 | each screen is sent the caller's list with exactly the tile, stipple and clip-mask entries that name pixmaps replaced by its own; the error cases; the screens run until one fails |
| `Requests.ReplayStops` | xorg-server/Xext/panoramiXprocs.c:885-899 | a replay stops at the first screen that fails, with its error, and otherwise reaches every screen |
| `Entries.GCEntry` | xorg-server/Xext/panoramiXprocs.c:846-885 | entry by entry: the bits 0x400, 0x800 and 0x80000 are given the ids of the screen the request goes to, unless they are 0; no other entry changes |
| `Requests.CreateWindow` | xorg-server/Xext/panoramiXprocs.c:54-160 | all error cases in their order; otherwise the same for back pixmap, border pixmap and colormap, with own ids, the class completed from the parent, visual, and coordinates under the root |
| `Entries.WindowEntry` | xorg-server/Xext/panoramiXprocs.c:86-150 | entry by entry the same for the bits 0x1, 0x4 and 0x2000; ids, visual and coordinates of the request to each screen |
| `Entries.WindowOutcomes` | xorg-server/Xext/panoramiXprocs.c:69-121 | what each error means that is given before any screen sees the request, and that there is no other |
| `Requests.CompletedFields` | xorg-server/Xext/panoramiXprocs.c:80-133 | the class filled in from the parent, and no visual for InputOnly |
| `Requests.InputOnlyAsIs` | xorg-server/Xext/panoramiXprocs.c:80-84 | an InputOnly window that passes the checks is sent its list unchanged |
| `Requests.FrontEntries` | xorg-server/Xext/panoramiXprocs.c:501-507 | x is always the first entry, and y the one after it |
| `Requests.ConfigureWindow` | xorg-server/Xext/panoramiXprocs.c:458-530 | the sibling entry names each screen's window, the x and y of a root child move by each screen's origin, all other entries are the caller's |
| `Entries.ConfigureEntry` | xorg-server/Xext/panoramiXprocs.c:485-524 | entry by entry: the sibling's id on each screen, and of a child of the root x and y less the screen's position |
| `Points.MovePoints` | xorg-server/Xext/panoramiXprocs.c:1410-1418 | the loop moves the first i points, in 16 bits, and no others |
| `Points.SumMoves` | xorg-server/Xext/panoramiXprocs.c:1411-1412 | moving the first relative point moves every partial sum by the same amount |
| `Points.AbsolutePoints` | xorg-server/Xext/panoramiXprocs.c:1405-1412 | the first point is absolute in either mode, and relative points add up |
| `CTypes.Conversions` | xorg-server/Xext/panoramiXprocs.c:1411-1417 | storing a number in 16 or 32 bits gives the one number of the range that differs from it by a multiple of 2^16 or 2^32 |
| `Points.MovedIsShifted` | xorg-server/Xext/panoramiXprocs.c:1405-1420 | so every absolute point is shifted by the screen's origin, in both coordinate modes |
| `Points.ReplayPoints` | xorg-server/Xext/panoramiXprocs.c:1395-1432 | every screen gets the original absolute points less its origin, whatever a handler leaves in the request |
| `Points.EachPoint` | xorg-server/Xext/panoramiXprocs.c:1395-1432 | point by point: every absolute point less the screen's position on the root, and unchanged in a window |
| `HashTable.HashTable.constructor` | xorg-server/Xext/hashtable.c:35-69 | an empty table of 64 buckets |
| `HashTable.RehashKeeps` | xorg-server/Xext/hashtable.c:104-112 | rehashing keeps every record and leaves each in bucket hash(key, bits) |
| `HashTable.RehashFilter` | xorg-server/Xext/hashtable.c:104-112 | the records with one key end up in one bucket, in reverse order |
| `HashTable.DoublingAnswer` | xorg-server/Xext/hashtable.c:89-121 | a search answers with the last record of a key after a doubling; that is its old answer exactly if the first and the last are one |
| `HashTable.DuplicatesReversed` | xorg-server/Xext/hashtable.c:89-167 | one key added 257 times, for any hash: the search answers with the newest record after 256 additions and with the oldest after the next one |
| `HashTable.SearchFinds` | xorg-server/Xext/hashtable.c:188-202 | looking at one bucket finds a key exactly if the table holds it |
| `HashTable.HashTable.DoubleSize` | xorg-server/Xext/hashtable.c:89-121 | same contents in twice the buckets, or nothing changed |
| `HashTable.HashTable.Add` | xorg-server/Xext/hashtable.c:123-167 | adds one zeroed record in front of its bucket, doubling when the table is too full, or changes nothing; exactly when it fails; the map gains the key |
| `HashTable.HashTable.Remove` | xorg-server/Xext/hashtable.c:169-186 | takes away the first record with the key, if any; the map loses the key |
| `HashTable.HashTable.Find` | xorg-server/Xext/hashtable.c:188-202 | the map's answer under distinct keys, the first record of the bucket in general |
| `GenericHash.HtGenericHash` | xorg-server/Xext/hashtable.c:222-244 | the index is a number below 2^numBits, for any key, whether char is signed or not |
| `GenericHash.DoublingSplits` | xorg-server/Xext/hashtable.c:239-244 | with one bit more a key stays in its bucket b or moves to b + 2^numBits |
| `GenericHash.OneCharApart` | xorg-server/Xext/hashtable.c:222-237 | two keys that differ in one char never have one 32-bit hash |
| `GenericHash.KnownHashes` | xorg-server/Xext/hashtable.c:222-237 | the hashes of two keys, and that of chars from 0x80 on with char signed and unsigned |
| `GenericHash.GenericIsGood` | xorg-server/Xext/hashtable.c:239-251 | the index is below 2^numBits and the comparison is 0 exactly for equal keys: what the table asks of them |
| `Shm.Server.ProcShmAttach` | xorg-server/Xext/shm.c:371-426 | all error cases in their order; a known shmid is shared, an unknown one becomes the new head of the list, and what is attached for writing is writable; every failure leaves list, resources and counts as they were |
| `Shm.AttachOutcomes` | xorg-server/Xext/shm.c:378-425 | what each answer means, for a listed segment and for a new one |
| `Shm.Server.ProcShmAttachFd` | xorg-server/Xext/shm.c:1145-1204 | all error cases in their order; a descriptor always gets a segment of its own, watched for bus faults, or nothing changes |
| `Shm.AttachFdOutcomes` | xorg-server/Xext/shm.c:1154-1203 | what each answer means |
| `Shm.Server.ShmBusfaultNotify` | xorg-server/Xext/shm.c:1133-1142 | the watch ends, and the resource with the id that attached the segment goes, whichever segment it names by now; the list and the counts stay right |
| `Shm.Server.ShmDetachSegment` | xorg-server/Xext/shm.c:428-451 | one user less; the segment leaves the list exactly with its last user, and the search for it finds it |
| `Shm.Server.ProcShmDetach` | xorg-server/Xext/shm.c:453-464 | frees the named resource and releases its segment |
| `Shm.Server.ProcShmCreatePixmap` | xorg-server/Xext/shm.c:1052-1129 | all error cases in their order; a pixmap counts as a user of its segment and its bits lie in it; when it cannot be added the count is as before |
| `Shm.CreatePixmapOutcomes` | xorg-server/Xext/shm.c:1064-1107 | what each answer to the checks means |
| `Shm.Server.ReferencePixmap` | xorg-server/dix/gc.c:247-254 | one reference more to a pixmap, and nothing else |
| `Shm.Server.ShmDestroyPixmap` | xorg-server/Xext/shm.c:248-268 | only the last reference to a pixmap releases its segment |
| `Shm.Server.ListedIffUsed` | xorg-server/Xext/shm.c:394-451 | in every reachable state the list holds exactly the segments that a resource or a pixmap names, and refcnt is their number |
| `ShmSizes.DivisionCheck` | xorg-server/Xext/shm.c:552-562 | the division decides what the product would, without the product |
| `ShmSizes.AcceptedIff` | xorg-server/Xext/shm.c:526-578 | a ShmPutImage is accepted exactly if its image fits behind the offset and its box in the image |
| `ShmSizes.RefusedWith` | xorg-server/Xext/shm.c:526-578 | BadMatch for a depth that does not fit a good format, and BadValue for all else |
| `ShmSizes.PathTaken` | xorg-server/Xext/shm.c:580-599 | which accepted requests are handed on as they are |
| `ShmSizes.PaintsSource` | xorg-server/Xext/shm.c:471-513 | on the scratch path, for ZPixmap, and wherever srcX is 0, exactly the source box is painted: pixel (i, r) is pixel (srcX + i, srcY + r) of the image at the offset, read from the segment's bytes, on every plane |
| `ShmSizes.ScratchColumns` | xorg-server/Xext/shm.c:484 | columns 4 to 9 of one row of ten pixels are drawn from column 4 on |
| `ShmSizes.ScratchInside` | xorg-server/Xext/shm.c:470-513 | on the scratch path every row read lies in the segment, in all formats |
| `ShmSizes.ReadsInSegment` | xorg-server/Xext/shm.c:580-599 | every row read lies in the segment: always on the scratch path and for ZPixmap, and exactly when on the direct path of the XY formats |
| `ShmSizes.DirectBehindSegment` | xorg-server/Xext/shm.c:580-593 | an accepted request whose only row ends behind the segment; in a larger segment it does not |
| `ShmSizes.DirectInside` | xorg-server/Xext/shm.c:580-593 | on the direct path every row read lies in the checked image: always for ZPixmap, and exactly when for the XY formats |
| `ShmSizes.DirectInsideWhole` | xorg-server/fb/fbimage.c:45-67 | with all rows drawn: exactly if srcX columns of padding do not lengthen a row |
| `ShmSizes.ShortcutIff` | xorg-server/Xext/shm.c:580-599 | the direct path paints what the scratch path paints exactly if srcX is 0 or nothing is painted |
| `ShmSizes.ShortcutPaintsMore` | xorg-server/Xext/shm.c:580-599 | an accepted request with srcX = 2 for which the direct path paints columns that were not asked for |
| `ShmSizes.WritePlanes` | xorg-server/Xext/shm.c:705-723 | the plane loop writes one block per requested plane, one behind the other |
| `ShmSizes.PlaneWritesInside` | xorg-server/Xext/shm.c:679-723 | the single size check keeps every one of these blocks inside the segment, and no two meet |
| `ShmSizes.PlanesAccepted` | xorg-server/Xext/shm.c:679-686 | an XYPixmap request is accepted exactly if the images of all requested planes fit behind the offset |
| `ShmSizes.ImageLengthIff` | xorg-server/Xext/shm.c:676-678 | the ZPixmap length is the image's exactly below 2^31 |
| `ShmSizes.ImageWriteInside` | xorg-server/Xext/shm.c:676-693 | when a ZPixmap request is accepted, below and from 2^31 bytes on, and that an accepted write lies in the segment exactly if its image is below 2^31 bytes or, in a segment of 2^32 bytes or more, fits behind the offset all the same |
| `ShmSizes.ImageBelow` | xorg-server/Xext/shm.c:676-678 | no image of up to 32767 x 32767 pixels of four bytes reaches 2^32 bytes |
| `ShmSizes.LargestImage` | xorg-server/Xext/shm.c:676-678 | an image of 32767 x 32767 pixels of four bytes gets a negative length |
| `ShmSizes.LargestImageAccepted` | xorg-server/Xext/shm.c:676-693 | that image is accepted at the end of a segment of 262140 bytes, with a length that is not 0 |
| `ShmSizes.PixmapInside` | xorg-server/Xext/shm.c:1076-1107 | the limits on width and height keep the 32-bit product exact: the checks pass exactly if the depth is allowed and the pixmap's bits lie in the segment |
| `ShmSizes.PixmapLimits` | xorg-server/Xext/shm.c:1076-1094 | which sizes and depths get BadValue and BadAlloc |
| `SleepQueue.CompareIsOrder` | xorg-server/dix/dixutils.c:104-116 | stamps compare as the times they stand for |
| `SleepQueue.HandlerTime` | xorg-server/Xext/sleepuntil.c:161-164 | within a clock period of the last stamp the handlers find the true time exactly when half a period has passed if and only if the clock has wrapped; UpdateCurrentTime always does |
| `SleepQueue.HandlerTimeAtWrap` | xorg-server/Xext/sleepuntil.c:161-164 | a request due in the millisecond of the wrap is taken to be later |
| `SleepQueue.DelayIsTimeLeft` | xorg-server/Xext/sleepuntil.c:177-181 | the delay is the time left exactly when that is below 2^31 milliseconds |
| `SleepQueue.DelayForEver` | xorg-server/Xext/sleepuntil.c:177-181 | for every request and every time: the wait becomes endless exactly when the time left modulo 2^32 is 2^31 or more, and otherwise the delay is that remainder |
| `SleepQueue.DelayPastPeriod` | xorg-server/Xext/sleepuntil.c:177-181 | with 2^32 + 5 milliseconds left the delay is 5 |
| `SleepQueue.Queue.ClientSleepUntil` | xorg-server/Xext/sleepuntil.c:72-122 | the request goes behind all that are not later and before all that are, or nothing is queued and nobody is notified |
| `SleepQueue.Queue.SertafiedDelete` | xorg-server/Xext/sleepuntil.c:131-150 | unlinks exactly this request and calls its notify function, if it has one |
| `SleepQueue.Queue.FreeResource` | xorg-server/Xext/sleepuntil.c:131-150 | deleting a sleeping request takes it off the queue and notifies it; order and books stay right |
| `SleepQueue.Queue.WakeDue` | xorg-server/Xext/sleepuntil.c:165-176 | exactly the requests not later than now are notified, in the order of the queue |
| `SleepQueue.Queue.BlockHandler` | xorg-server/Xext/sleepuntil.c:152-182 | the same, and exactly what becomes of the wait, however far off the first request left is |
| `SleepQueue.Queue.WakeupHandler` | xorg-server/Xext/sleepuntil.c:184-205 | the same, and the handlers are given up exactly when nothing waits |
| `SleepQueue.Queue.NotifiedOnce` | xorg-server/Xext/sleepuntil.c:72-205 | over any run an accepted request is notified once if it has left the queue, and not at all while it waits |
| `Security.DelaysAddUp` | xorg-server/Xext/security.c:257-277 | the delays of a timeout add up to it, none is zero, and each fits in 32 bits |
| `Security.NoneRunsAtOnce` | xorg-server/os/WaitFor.c:338-340 | TimerSet cuts none of them short exactly if the timeout is below 2^31 milliseconds |
| `Security.TooLong` | xorg-server/os/WaitFor.c:338-340 | 2147484 seconds is the first timeout that fails the assertion, or is over at once without it; one of 4294968 seconds then waits for one |
| `Security.WholeTimeout` | xorg-server/Xext/security.c:257-277 | the last delay is the whole timeout exactly up to 2147483 seconds |
| `Security.SecurityAuthorizationExpired` | xorg-server/Xext/security.c:295-310 | the authorization is over exactly if no seconds remain; otherwise the next delay is set |
| `Security.TimerSet` | xorg-server/os/WaitFor.c:296-344 | with the callbacks it runs itself: the timer waits, its authorization is over, or the assertion fails, exactly by the length of the timeout; the delays set are those of the timeout |
| `Security.StartAuthorizationTimer` | xorg-server/Xext/security.c:325-332 | the same for the full timeout of an authorization; the timer that waits holds the last delay |
| `Security.ComputeAuthorizationTimeout` | xorg-server/Xext/security.c:257-277 | the delay and the seconds left over add up to what was asked for, and the seconds fall |
| `Security.Server.SecurityClientState` | xorg-server/Xext/security.c:942-993 | a running client is counted once, one that is retained or gone is discounted only while it is live, and the last one restarts the timer with the last delay of the timeout |
| `Security.Server.NewClient` | xorg-server/Xext/security.c:953-958 | a new client uses no authorization |
| `Security.Server.ClientRuns` | xorg-server/Xext/security.c:960-974 | the authorization it connected with counts one more live client, and its timer does not run |
| `Security.Server.CloseDownClient` | xorg-server/dix/dispatch.c:3409-3492 | retained exactly if it asked for that and is closed down for the first time, gone otherwise; one live client less if it was one, which it then no longer is, so never a second time; no other client is touched |
| `Security.Server.RetainedThenGone` | xorg-server/dix/dispatch.c:3409-3492 | a client of the default mode goes when its connection ends; one that asked to be retained stays and goes the second time |
| `Security.Server.ChangeCloseDownMode` | xorg-server/dix/dispatch.c:3349-3371 | the client's mode is one of three or stays as it was; no authorization and no other client is touched |
| `Security.Server.CloseDownRetainedResources` | xorg-server/dix/dispatch.c:3253-3265 | exactly the clients that were retained temporarily are gone |
| `Security.Server.GenerateAuthorization` | xorg-server/Xext/security.c:500-529 | a new authorization without users, whose timer waits unless its timeout is 0; or none at all, or a failed assertion, exactly for which timeouts |
| `Security.Server.DeleteAuthorization` | xorg-server/Xext/security.c:168-219 | exactly the clients that name it are closed down, client by client: retained if they asked for that and were not closed down before, gone otherwise; no other client and no other authorization is touched |
| `Security.Server.RevokeAuthorization` | xorg-server/Xext/security.c:568-585 | the authorization is gone and its clients are closed down, or nothing changes if there is none |
| `Security.Server.AuthorizationExpired` | xorg-server/Xext/security.c:295-310 | no live client uses an authorization whose timer runs out; it goes, with the clients that still name it; it had the whole timeout exactly up to 2147483 seconds |
| `Security.Server.NoLiveUser` | xorg-server/Xext/security.c:295-310 | in every reachable state an authorization with a running timer has no live client |
| `Security.Server.UnusedWaits` | xorg-server/Xext/security.c:975-993 | and one with a timeout that no live client uses has a running timer, up to 2147483 seconds with the whole timeout |
| `PciConfig.Conf1Read` | pciaccess/src/x86_pci.c:230-263 | the bytes that the data port shows for this access, for an aligned one those of the addressed registers, or EIO and nothing read; port 0xCF8 holds its old value again |
| `PciConfig.Selects` | pciaccess/src/x86_pci.c:241 | the address written enables configuration space and selects this bus, device, function and dword |
| `PciConfig.ChunkStep` | pciaccess/src/x86_pci.c:881-894 | each access is naturally aligned within a dword; refused, or the rest of the range follows it |
| `PciConfig.ReadConf1` | pciaccess/src/x86_pci.c:874-896 | the buffer holds exactly bytesRead bytes of the range; 0 is returned exactly if that is all of it |
| `PciConfig.Conf1Succeeds` | pciaccess/src/x86_pci.c:874-896 | the whole range is read exactly if it lies in a valid function's 256 registers and does not end in a three-byte chunk |
| `PciConfig.ThreeBytesFail` | pciaccess/src/x86_pci.c:874-896 | registers 0 to 2 of a valid function cannot be read in one call |
| `PciConfig.ShiftedByte` | pciaccess/src/netbsd_pci.c:224-227 | shifting a dword down by whole bytes brings the wanted register to the front |
| `PciConfig.NetbsdRead` | pciaccess/src/netbsd_pci.c:207-236 | the bytes of the range by the register numbers cast to 32 bits, up to the dword the kernel refuses |
| `PciConfig.CastBytes` | pciaccess/src/netbsd_pci.c:217 | up to 2^32 the cast changes nothing, and from there on the same bytes come again |
| `PciConfig.BackEndsAgree` | pciaccess/src/netbsd_pci.c:207-236 | the two back ends never deliver different bytes; inside a valid function they leave the same buffer but for the three bytes at the end that mechanism #1 leaves out |
| `PciScan.PciSystem.CfgReadU8` | pciaccess/src/common_interface.c:495-507 | one register of a valid function |
| `PciScan.PciSystem.CfgReadU32` | pciaccess/src/common_interface.c:526-539 | four registers, as one number |
| `PciScan.PciSystem.ScanFunction` | pciaccess/src/x86_pci.c:742-802 | one function, and all behind it if it is a bridge, up to the first set-up that fails, for every scan that ends |
| `PciScan.PciSystem.ScanBus` | pciaccess/src/x86_pci.c:720-807 | appends the bus's functions and those behind its bridges in depth-first order, up to the first failing set-up, whose error it returns, for every scan that ends |
| `PciRegisters.FoundMeans` | pciaccess/src/x86_pci.c:720-752 | a function is present by the bytes of registers 0, 1 and, of function 0, 0x0E |
| `PciRegisters.BridgeMeans` | pciaccess/src/x86_pci.c:782-796 | a bridge by register 0x0E, and the bus it leads to by register 0x19 |
| `PciRegisters.DescribeMeans` | pciaccess/src/x86_pci.c:767-774 | what is listed of a function: its place, and the class in registers 9 to 11 |
| `PciRegisters.ListedExactly` | pciaccess/src/x86_pci.c:720-807 | a scan without a failure lists exactly the functions present on its bus and on the buses in register 0x19 of listed bridges, with all register numbers written out |
| `PciRegisters.ScanNested` | pciaccess/src/x86_pci.c:720-807 | the devices that the code lists, in order, on a machine of two nested bridges given byte by byte |
| `PciTopology.ScanCounts` | pciaccess/src/x86_pci.c:720-807 | a present function is listed once for every way from the first bus to its bus |
| `PciTopology.ScanMembers` | pciaccess/src/x86_pci.c:720-807 | listed are exactly the present functions on buses that bridges lead to |
| `PciTopology.Forks` | pciaccess/src/x86_pci.c:786-796 | two ways to a bus mean two reachable bridges that share a bus on the way |
| `PciTopology.ListedOnce` | pciaccess/src/x86_pci.c:720-807 | where no set-up fails, no function is listed twice exactly if no two reachable bridges lead to one non-empty bus |
| `PciTopology.ListedTwice` | pciaccess/src/x86_pci.c:786-796 | with two bridges to bus 1 the device there is listed twice |
| `PciRepeats.ScannedOnce` | pciaccess/src/x86_pci.c:720-807 | whatever set-ups fail, a scan of ranked buses lists a function twice exactly if it lists two bridges to one non-empty bus |
| `PciRepeats.OnceAfterFailure` | pciaccess/src/x86_pci.c:776-778 | with two bridges to bus 1 and a set-up that fails at the second, nothing is listed twice |
| `PciTopology.ProperNumbering` | pciaccess/src/x86_pci.c:720-807 | with secondary numbers that grow and never repeat, the scan ends within 256 nested buses and lists every reachable function once, up to the first whose set-up fails |
| `PciTopology.RankedEnds` | pciaccess/src/x86_pci.c:720-807 | wherever buses have a rank the scan ends and lists the depth-first order up to the first failing set-up |
| `PciTopology.EndlessIffLoop` | pciaccess/src/x86_pci.c:720-807 | for any set-ups: the scan never ends exactly if a chain of bridges that it goes through comes back to a bus on it |
| `PciTopology.EndlessIffBridgesLoop` | pciaccess/src/x86_pci.c:786-796 | where no set-up fails, exactly if any chain of bridges from the first bus does; and never otherwise |
| `PciTopology.EndsIffRanked` | pciaccess/src/x86_pci.c:786-796 | where no set-up fails the recursion ends exactly if the buses it comes to can be ranked |
| `PciTopology.SelfBridgeNeverEnds` | pciaccess/src/x86_pci.c:786-796 | where no set-up fails a bridge that leads to its own bus makes it go on for ever |
| `VendorTrie.NibblesDiffer` | pciaccess/src/common_device_name.c:166-168 | four nibbles tell 16-bit ids apart |
| `VendorTrie.SliceIsNibble` | pciaccess/src/common_device_name.c:166-168 | the index computed on level l is nibble l of the id |
| `VendorTrie.Trie.Insert` | pciaccess/src/common_device_name.c:149-206 | the leaf of exactly this id, four nibbles below the root; the one of before or a new empty one; no other leaf is moved, lost or changed |
| `VendorTrie.Trie.LeavesDiffer` | pciaccess/src/common_device_name.c:149-206 | different ids have different leaves |
| `PciNames.Names.PopulateVendor` | pciaccess/src/common_device_name.c:220-338 | a leaf gets its vendor's name, and its devices only all together, from any earlier state; a filled one is left alone |
| `PciNames.Names.ReadLine` | pciaccess/src/common_device_name.c:243-332 | one line of the file: the vendor in force, the name, and the entries are those of the file so far |
| `PciNames.SearchIsScan` | pciaccess/src/common_device_name.c:370-379 | the first match among a vendor's entries is the first match of a scan of the whole file |
| `PciNames.Names.FindDeviceName` | pciaccess/src/common_device_name.c:348-383 | the first matching line of a direct scan, after any lookups; at worst nothing if the file cannot be opened |
| `PciNames.Names.FindVendorName` | pciaccess/src/common_device_name.c:392-414 | the first line of the vendor with the low 16 bits of the id, after any lookups |
| `PciNames.Names.GetStrings` | pciaccess/src/common_device_name.c:420-451 | for every vendor id: device and subdevice as in the file; the name given for the subvendor is always the vendor's |
| `PciNames.SubvendorNamed` | pciaccess/src/common_device_name.c:385-414 | where listed vendors differ in name it is the subvendor's exactly if the ids are equal in 16 bits or neither is listed |
| `PciNames.SubvendorMisnamed` | pciaccess/src/common_device_name.c:392-414 | in every file of two vendors each has its own name, so the one given is wrong |
| `PciNames.CutVendor` | pciaccess/src/common_device_name.c:403 | in files whose vendor ids have four digits, cutting the id is right exactly for 16-bit ids and for those whose low half is not listed |
| `PciNames.VendorLineReadBack` | pciaccess/src/common_device_name.c:248-283 | a vendor line is read back as its id and name |
| `PciNames.DeviceLineReadBack` | pciaccess/src/common_device_name.c:307-325 | a device line is read back as its id and name |
| `PciNames.SubsystemLineReadBack` | pciaccess/src/common_device_name.c:326-333 | a subsystem line is read back as its two ids, in their order, and name |
| `PciNames.ThirdTab` | pciaccess/src/common_device_name.c:252-256 | also with a third tab in front |
| `PciNames.LineIgnored` | pciaccess/src/common_device_name.c:252-263 | a line is passed over exactly if no four hex digits follow its tabs |
| `PciNames.NewlineIgnored` | pciaccess/src/common_device_name.c:265-268 | the newline at its end changes nothing |
| `PciNames.ThreeLines` | pciaccess/src/common_device_name.c:348-383 | in a file of a vendor, a device and a subsystem, which lookups find which line, with and without wildcards, and which find none |
| `PciNames.FindInThreeLines` | pciaccess/src/common_device_name.c:348-414 | the code's answers on that file |
| `PciNames.WideVendorMisnamed` | pciaccess/src/common_device_name.c:392-414 | in every such file, a wide id, which is not listed, is given the name of the listed vendor with its low half |
| `PciNames.OneVendorMisnamed` | pciaccess/src/common_device_name.c:392-414 | so in a file of one vendor |
| `CString.PaddedConverts` | pciaccess/src/common_vgaarb.c:212-213 | strtoul undoes %0<width>x, whatever text follows |
| `CString.DecimalConverts` | pciaccess/src/common_vgaarb.c:66 | strtoul undoes %d |
| `CString.StrtoulForms` | pciaccess/src/common_vgaarb.c:66-101 | strtoul of digits, with white space or a sign in front, and beyond 64 bits |
| `CString.StrtoulPrefix` | pciaccess/src/common_vgaarb.c:88-101 | in base 16 a prefix 0x or 0X changes nothing |
| `CString.PrefixAlone` | pciaccess/src/common_vgaarb.c:88-101 | a prefix without a digit behind it is the number 0 |
| `CString.Characters` | pciaccess/src/common_device_name.c:258-261 | which characters isdigit, isxdigit and isspace accept |
| `CString.DigitValues` | pciaccess/src/common_device_name.c:274-328 | what hexadecimal digits of either case are worth |
| `CString.FirstToken` | pciaccess/src/common_vgaarb.c:52-62 | strtok_r cuts off a token and leaves the rest |
| `VgaArb.SlotMatch.Store` | pciaccess/src/common_vgaarb.c:78-102 | the slot's fields are stored one by one as far as their tokens are there |
| `VgaArb.Arbiter.ParseStringToDecodesRsrc` | pciaccess/src/common_vgaarb.c:45-123 | the result and every partial write, also of a malformed answer |
| `VgaArb.SlotRoundTrip` | pciaccess/src/common_vgaarb.c:239-240 | every slot printed is parsed back field by field |
| `VgaArb.SlotCutShort` | pciaccess/src/common_vgaarb.c:78-102 | a slot that ends early gives the fields it has |
| `VgaArb.LongSlotCut` | pciaccess/src/common_vgaarb.c:78-84 | of a long slot the first 31 characters count |
| `VgaArb.CountRoundTrip` | pciaccess/src/common_vgaarb.c:56-66 | a count comes back exactly if it has at most nine digits; the tenth is cut off |
| `VgaArb.RsrcRoundTrip` | pciaccess/src/common_vgaarb.c:212-225 | each of the four resource values printed is parsed back |
| `VgaArb.AnswerRoundTrip` | pciaccess/src/common_vgaarb.c:45-123 | a whole answer is parsed back, whatever fields follow, with and without a slot wanted |
| `VgaArb.AnswerCutShort` | pciaccess/src/common_vgaarb.c:45-123 | an answer that ends early, or whose slot does, gives what comes before it and no resources |
| `VgaArb.TextExamples` | pciaccess/src/common_vgaarb.c:212-240 | the texts of some slots, of an answer and of the resources |

## Left out

- GetImage.PanoramiXGetImage: `long` has 64 bits; SourceValidate is not modelled, and a request for a pixmap ends where it is handed on.
- Xinerama.XineramaGetImageData: box coordinates are integers without the 16-bit limit of the region code, which the boxes of accepted requests keep on a logical screen of up to 32767 pixels a side; a failing allocation of scratch memory is not modelled.
- Raster.CopyBits: bytes are unsigned and the host is little-endian; with a signed `char` the right shift would smear the top bit.
- The region code: a region is a set of points, and any cutting of it into disjoint rectangles is allowed.
- Requests.CreateWindow: the record of the new window, added when every screen has succeeded, is not modelled.
- Points.ReplayPoints: shared pixmaps, which go straight to the saved handler, are not modelled; the three requests differ only in type names and share one model.
- HashTable.HashTable.Add: linked lists are sequences, and the pointers returned are the record objects; ht_destroy, the dump functions and the hash of resource ids (its core, HashResourceID, is not part of this model) are not modelled.
- GenericHash.GenericIsGood: keys are compared as whole byte sequences; all keys of one table have the same length.
- Shm.Server.ProcShmAttach: shmat, mmap, permissions, the credentials check and the failing allocation of a descriptor are flags, and so is whether an id is the client's to use and free of other resource types; ProcShmCreateSegment, which builds a segment like ProcShmAttachFd, is not modelled.
- Shm.Server.ShmBusfaultNotify: resources of other types under the same id, which are freed as well, are not modelled.
- Shm.Server.ProcShmCreatePixmap: the Xinerama variant with one pixmap per screen is not modelled.
- ShmSizes.DirectInside: rows are taken whole, as the drawing code computes them; clipping to the drawable may read less.
- ShmSizes.PaintsSource: where on the drawable the pixels land is not modelled.
- ShmSizes.WritePlanes: what a driver writes for one plane is taken to be its padded rows; the censoring of windows is not modelled.
- SleepQueue.Queue.ClientSleepUntil: server resets, IgnoreClient and AttendClient, and notify functions that call back into the queue are not modelled.
- Security.TimerSet: the list of other timers is not modelled; a timer that waits runs when its delay is over.
- Security.Server.GenerateAuthorization: the id is one that no client holds, as the counter of fake client ids provides until it wraps; attribute checks, event selection, revocation events and failing allocations are not modelled, nor what the request does after its authorization was freed at once.
- Security: the access checks of trusted and untrusted clients are not modelled.
- PciConfig.Conf1Read: the fields of the address are added, since they do not overlap; what an access that is not aligned finds behind the data port is a parameter.
- PciConfig.NetbsdRead: the host is little-endian, where htole32 changes nothing; an offset that wraps at 2^64 is not modelled.
- PciScan.PciSystem.ScanBus: the set-up of a function (its allocation, BARs, ROM) is one error number per function that does not touch the header registers; mechanism #2, which refuses device numbers from 16 on, is not modelled.
- PciScan.PciSystem.ScanFunction: after a failing set-up the code's list of devices is the block that realloc has moved, and its only caller gives the whole system up; the model keeps the devices listed before.
- VendorTrie.Trie.Insert: allocations succeed, and the loop tests the bit count before it reads a node, as the code's result does.
- PciNames.Names.PopulateVendor: the file has the same lines at every opening and is well formed in that a subsystem line follows a device line of its vendor; lines longer than the buffer arrive as the pieces that fgets returns.
- VgaArb.Arbiter.ParseStringToDecodesRsrc: reads and writes of the device file and the calls that lock, unlock and set decodes are not modelled.
- Byte-swapped requests, version queries, event writing, audit logs, screen-saver, DPMS, SHAPE and XC-MISC: plumbing or thin.
- The other operating systems' back ends of libpciaccess, memory mapping and MTRRs: kernel calls.
