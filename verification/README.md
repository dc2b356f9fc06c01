# xmorph: a verified model of building and entering a root filesystem

xmorph flattens container images and directories into a target directory and then makes that
directory the root of the running system with `pivot_root`. This project models the four parts
of it whose correctness is decided by code, on top of a small model of the kernel, and proves
what the program promises about them.

- **Extraction** (`Paths`, `FileTree`, `Resolution`, `Confinement`, `HostDisk`, `Extraction`,
  `Changeset`, `Loaders`, `CopyContainment`, `LoaderAgreement`,
  `Sequencing`, `Building`). The target is an ordinary directory inside a larger host
  tree. The modelled system calls follow every symbolic link in a non-final component, so
  staying inside the target is a theorem about `secureJoin` and `extractTar`, not a feature of
  the model. Nodes are kept by location and file contents by inode number, so hard links share
  contents. Path strings are lists of components between slashes; empty, "." and ".."
  components stay until `Clean`, the program or the kernel interprets them.
- **Mounts** (`MountTree`, `PivotMounts`, `OldRootCleanup`). Mounts form a tree; they stack, hide
  one another, and lookup enters the topmost one at every step. Every call may be refused.
- **Lists** (`KeepLasts`, `Layers`, `ImageConfigs`). Image references, layer lists, environments
  and the cache key.
- **The run** (`WatchdogDevice`, `PivotRun`). `runPivot` with its deferred calls; every step may
  fail, and the contracts speak of all runs.

Methods follow the program's loops and early returns. Each is proved equal to a function of its
inputs or of the old state, and the lemmas state what that function achieves.

## Main results

1. Whatever entries a stream has and whatever links are planted, extraction changes nothing
   outside the target and no hard link reaches a file only the host had (`ExtractContained`,
   `ExtractNoForeignFiles`). One kind of entry is outside this: a whiteout whose suffix is empty,
   "." or "..". `MarkerContainedIff` says exactly when such a marker stays inside, and
   `StreamContainedIff` exactly when a whole stream does, at every moment of it.
   `MarkerReachesParent` and `MarkerEmptiesHost` are inputs where it does not.
   A directory is copied without such care: `VisitContainedIff` and `CopyContainedIff` say exactly
   when one step and a whole copy stay inside, and `BuildContainedIff` puts images, tarballs and
   directories together. `PlantedLinkEscapes` is a build of two layers that writes wherever the
   link in the first one points.
   `OpaqueMarkerClears` and `WhiteoutRemoves` say what the two kinds of marker do, `EntrySucceedsIff`
   exactly when an entry is applied without an error.
2. On layers that name each path with one type, have real parent directories and list markers
   before what they could hide, extraction in stream order equals the two-phase meaning of the
   OCI Image Format Specification, "Image Layer Filesystem Changeset", sections "Whiteouts" and
   "Opaque Whiteout" (`ExtractIsChangeset`, `LayersAreChangesets`). The program departs from it in
   two places, each with its exact condition and an input. A marker also removes what its own layer
   added before it (`LateMarkerIff` for one marker, `MarkersFirstIff` for a whole layer,
   `OwnMarkerDiffers`, `OwnFileIsLost`). A directory entry does not replace a non-directory
   (`DirEntryIff`, `FileStaysUnderDirEntry`).
3. `secureJoin` equals a component-by-component resolver confined to the root, on every tree, once
   link targets are cleaned lexically (`SecureJoinOnCleanedLinks`); with targets that climb only in
   front it equals it outright and agrees with the kernel after `chroot`
   (`SecureJoinIsConfined`, `SecureJoinIsChroot`). `InnerDotDotDiffers` shows the condition is needed.
   How a target is written plays no part beyond its lexically cleaned form (`SecureJoinLexical`,
   `CleanCancels`, `LinkTargetCancels`), and 255 links are the limit (`ChainLimit`).
4. Copying a directory and packing then extracting it go the same way exactly when, at each step,
   the kernel arrives where `secureJoin` does and the way there survives the step (`VisitAgreesIff`,
   `CopyAgreesIff`); they then give the same host tree and the same error (`LoadersAgree`), and
   into an empty target exactly the source tree (`RoundTrip`). A relative link, as on a merged
   /usr, qualifies (`RelativeLinkAgrees`); an absolute one does not (`AbsoluteLinkAgreesIff`).
5. A build succeeds exactly when its target can be made and each layer in turn can be loaded and
   applied; otherwise it ends with the first failure and applies no later layer (`BuildSucceedsIff`,
   `BuildFailsAtFirst`). Deduplicating the layer list changes neither the tree nor the merged configuration
   (`DedupPreservesBuild`). The cache key's text tells two lists apart exactly when their keys, cut
   before every line that begins like a key, differ (`CachePreimageIff`, `RootfsCollidesIff`).
   Every string is a reference with or without host, tag and digest, and `NormalizesTo` says what
   each becomes (`EveryReference`).
6. From any mount table, after `Prepare` the new root's dev, proc and sys are the mounts made for
   them (`PreparedNoShadowing`); the order that once shipped loses them (`SwappedOrderShadows`); and
   `pivot_root` is allowed and preserves both trees (`PreparedAllowsPivot`, `PivotKeepsBothTrees`,
   `PivotedSystem`).
7. The process is replaced exactly when a pivot is wanted and nothing goes wrong; a dry run does
   nothing. No run takes anything down before all its checks passed, and none that returns leaves
   the watchdog armed. The deferred unmount comes after the thread is unlocked, so it may act in the
   host's namespace or in another: the work directory's mounts are as found except when it acts in
   a namespace apart from the host's, and then exactly the run's own tmpfs is left (`RunPivot`).
8. Cleaning up after the pivot fails on nothing and unmounts the old root's subtree and, with it,
   every mount elsewhere whose path begins with the same characters (`UnmountUnder`,
   `PrefixIsSubtreeIff`).

## Model

| member | source | states |
|---|---|---|
| Resolution.SecureJoinLoop | internal/oci/extract.go:246-307 | the loop ends on every tree, link cycles included, and computes the resolution function whose properties the rows below state |
| Resolution.ResolveName | internal/oci/extract.go:271-305 | one ordinary component: an error below a file, a link restarts at root or at the link's directory with the lexically joined remainder, a missing name is literal |
| Resolution.SecureJoinSettled | internal/oci/extract.go:236-245 | a result lies below root, has only ordinary names, and no existing prefix of it is a link or a file it passes through |
| Resolution.SecureJoinIdempotent | internal/oci/extract.go:246-307 | resolving a result again returns it unchanged |
| Confinement.SecureJoinOnCleanedLinks | internal/oci/extract.go:292-305 | for any tree and any path with ".." only in front: same result, errors and link count as the plain confined resolver on the tree with cleaned link targets |
| Confinement.SecureJoinIsConfined | internal/oci/extract.go:246-307 | the same without cleaning when link targets climb only in front |
| Confinement.SecureJoinIsChroot | internal/oci/extract.go:236-241 | where the kernel in a chroot at root arrives, secureJoin arrives; where the kernel finds a name missing, the result does not exist |
| Confinement.InnerDotDotDiffers | internal/oci/extract.go:299-303 | a tree on which lexical re-joining and following links give different places |
| Paths.CleanCancels | internal/oci/extract.go:299-303 | a name and a ".." after it cancel, wherever they stand in a path, relative or absolute |
| Paths.CleanDrops | internal/oci/extract.go:299-303 | empty and "." components are dropped wherever they stand |
| Resolution.SecureJoinLexical | internal/oci/extract.go:292-304 | on any two trees whose link targets clean to the same form, every path resolves alike |
| Resolution.LinkTargetCancels | internal/oci/extract.go:299-303 | a link target a/n/../b leads to a/b below the link's directory, or below root if it is absolute |
| Resolution.ShareIsFound | internal/oci/extract.go:299-303 | the link l -> usr/lib/../share in /t resolves to /t/usr/share |
| Resolution.StepBack | internal/oci/extract.go:263-268 | going into something that is no link and out again by ".." leads back to the same directory |
| Resolution.ChainLimit | internal/oci/extract.go:247-291 | a chain of links is followed to its end exactly when it has no more than 255, and is refused otherwise |
| FileTree.MkdirAllLiteral | internal/oci/extract.go:225-234 | on a link-free path exactly the missing directories are created, or a file is in the way and nothing changes |
| Extraction.ClearDirContents | internal/oci/extract.go:324-337 | removing the children one by one, in any listing order, removes exactly everything below the directory |
| Extraction.ExtractEntry | internal/oci/extract.go:108-221 | one entry does what the entry function says, with every early return |
| Extraction.ExtractTar | internal/oci/extract.go:87-223 | the stream stops at the first failing entry; when every entry it reaches meets its condition, the whole run is contained and exposes no host file |
| Extraction.OpaqueMarker | internal/oci/extract.go:133-139 | the entry .wh..wh..opq empties the directory its parent path leads to, keeps every other node, tolerates a missing directory and fails on a file |
| Extraction.OpaqueMarkerClears | internal/oci/extract.go:133-139 | in any existing directory of the target it succeeds, leaves nothing below it and keeps everything else |
| Extraction.WhiteoutRemoves | internal/oci/extract.go:140-146 | the entry .wh.name removes the sibling name and all below it, and keeps everything else |
| Extraction.ClimbingRefused | internal/oci/extract.go:116-121 | a name that climbs out is an error and changes nothing |
| Extraction.EntrySucceedsIff | internal/oci/extract.go:108-221 | exactly when an entry is applied without an error: the name stays inside, its parent resolves to a real or missing directory, and its type can be put there |
| Extraction.ExtractStops | internal/oci/extract.go:98-106 | a stream succeeds exactly when each entry does on the tree left by those before; otherwise it ends with the first error, and no later entry is applied |
| Extraction.EntryFrame | internal/oci/extract.go:108-221 | any entry, failing or not, changes only what is at or below the place it acts on, plus missing directories above it |
| Extraction.EntryKeepsTree | internal/oci/extract.go:108-221 | after any entry each existing path's parent is a directory and every file has contents |
| Extraction.OverwriteIsFresh | internal/oci/extract.go:162-181 | overwriting creates a new inode with the new contents; other names of the old inode keep theirs |
| Extraction.PlaceIsPlaced | internal/oci/extract.go:153-200 | for every entry type, the removal, creation, link and hard-link calls act on exactly the target name |
| Extraction.ExtractContained | internal/oci/extract.go:90-97 | for any stream whose whiteouts name ordinary siblings, and any planted links, nothing outside the target and no existing file content changes |
| Extraction.ExtractNoForeignFiles | internal/oci/extract.go:189-200 | every file below the target after a contained run is new or was below it before |
| Extraction.MarkerContainedIff | internal/oci/extract.go:140-146 | a whiteout stays inside exactly when its suffix is ordinary, or the joined name is still strictly below root, or the target is the whole host tree |
| Extraction.MarkerReachesParent | internal/oci/extract.go:140-146 | an entry for which the joined name is the target's parent |
| Extraction.MarkerEmptiesHost | internal/oci/extract.go:140-146 | with a target directly below "/", an entry that leaves nothing of any host tree but "/" and reports a failure |
| Extraction.EntryContainedIff | internal/oci/extract.go:108-221 | one entry of any type stays inside exactly when it is no whiteout that reaches out; the target is then still a real directory |
| Extraction.StreamContainedIff | internal/oci/extract.go:90-97 | for every stream: nothing outside the target changes at any moment exactly when each entry that is reached meets its condition |
| Changeset.ExtractImage | internal/oci/extract.go:32-52 | layers are applied in order up to the first failure, and the whole image is contained when each layer is |
| Sequencing.AfterOneMore | internal/rootfs/builder.go:40-49 | the tree after one more step is what that step makes of the tree the ones before have left |
| Changeset.LayersStop | internal/oci/extract.go:40-51 | an image succeeds exactly when each layer does; otherwise it ends with the first layer's error |
| Changeset.ExtractIsChangeset | internal/oci/extract.go:133-222 | in-order extraction of a well-behaved layer succeeds and gives the two-phase meaning over the whole host tree |
| Changeset.LayersAreChangesets | internal/oci/extract.go:40-51 | the same for any number of layers |
| Changeset.LateMarkerIff | internal/oci/extract.go:133-146 | the tree is what the specification says after a marker exactly when the marker hides nothing that its own layer has added |
| Changeset.MarkersFirstIff | internal/oci/extract.go:18-21 | a layer of suitable entries means at every moment what the specification says exactly when no marker comes after an entry it would hide |
| Changeset.OwnMarkerDiffers | internal/oci/extract.go:133-146 | on any tree and for any name: a layer with a file and then its whiteout leaves nothing, where the specification's tree has the file |
| Changeset.OwnFileIsLost | internal/oci/extract.go:133-146 | the concrete stream a, .wh.a below /t |
| Changeset.DirEntryIff | internal/oci/extract.go:154-157 | a directory entry shows a directory exactly when the tree so far has a directory or nothing there |
| Changeset.DirEntryKeepsOther | internal/oci/extract.go:154-157 | on top of any file or link a directory entry changes nothing at all, where the specification's tree has a directory |
| Changeset.FileStaysUnderDirEntry | internal/oci/extract.go:154-157 | a concrete tree with a file a and the entry "a/": the entry fails and the file stays |
| Loaders.TarDirectory | internal/cli/build_compose.go:137-196 | the stream is one header per visit, directories first, names relative |
| Loaders.PackedSlash | internal/cli/build_compose.go:140-190 | names of directories end in a slash and no others do |
| Loaders.VisitsAreSource | internal/cli/build_compose.go:140-190 | the walk visits exactly the paths the source has, with their types, contents and targets |
| Loaders.CopyDir | internal/rootfs/copy.go:15-59 | the walk callback applied visit by visit up to the first failure |
| Loaders.CopyStops | internal/rootfs/copy.go:20-59 | a copy succeeds exactly when each step does; otherwise it ends with the first error |
| Loaders.CopyIsPlaced | internal/rootfs/copy.go:39-50 | each callback has the effect of the matching tar entry, although it truncates instead of creating exclusively |
| Loaders.CopyFollowsLink | internal/rootfs/copy.go:61-78 | with an absolute link in the destination a copied file lands at the link's target, which is inside exactly when the target is |
| Loaders.RoundTrip | internal/cli/build_compose.go:135-196 | packing and extracting into an empty directory gives back exactly the source tree and changes nothing else |
| CopyContainment.MkdirAllMakes | internal/rootfs/copy.go:39-40 | os.MkdirAll on any path through any links makes nothing, or new directories from the first missing name on and no others |
| CopyContainment.VisitContainedIff | internal/rootfs/copy.go:36-56 | for every visit and every tree: a step stays inside exactly when what it makes lies below the destination and its parent path leads there, or it re-creates the identical link |
| CopyContainment.CopyContainedIff | internal/rootfs/copy.go:20-59 | for every list of visits: nothing outside the destination changes at any moment exactly when each step that is reached meets that condition |
| CopyContainment.NoLinkDirectoryStays | internal/rootfs/copy.go:20-59 | a directory none of whose directories lands on a link of the destination meets it |
| LoaderAgreement.MkdirAllIsWithDirs | internal/rootfs/copy.go:39-40 | a success of os.MkdirAll, through any links, leaves the path's directory and the directories above it, and nothing else is new |
| LoaderAgreement.VisitAgreesIff | internal/rootfs/copy.go:32-51 | for directories, files and links on any tree: a step does what its tar entry does, errors included, exactly when both resolutions lead to one place and the way survives, or both are refused alike |
| LoaderAgreement.CopyAgreesIff | internal/rootfs/copy.go:20-59 | both loaders are at the same tree and error after every step exactly when each step that is reached meets that condition |
| LoaderAgreement.LoadersAgree | internal/rootfs/copy.go:15-59 | under that condition: same final tree, same failing entry, same error as packing and extracting |
| LoaderAgreement.NoLinkAgrees | internal/rootfs/copy.go:15-59 | a source none of whose directories lands on a link of the destination meets it |
| LoaderAgreement.RelativeLinkAgrees | internal/oci/extract.go:90-97 | with a link bin -> usr/bin in the destination both loaders accept the directory bin and put its files below usr/bin |
| LoaderAgreement.AbsoluteLinkAgreesIff | internal/rootfs/copy.go:61-78 | with an absolute link the loaders put a file at two places, except when the destination is the whole host |
| LoaderAgreement.WhiteoutNameDiffers | internal/cli/build_compose.go:140-190 | a source file whose name begins with ".wh." is copied, but its packed entry is taken for a marker |
| Building.ExtractLayer | internal/rootfs/builder.go:56-85 | each kind of source goes to its loader and leaves the tree that loader's function says, for a directory on any tree at all; only images yield a configuration |
| Building.BuildRootfs | internal/rootfs/builder.go:34-51 | the fold over layers, with count and merged configuration, also when a directory copy leaves the target, as long as later images and tarballs find it real; contained when each layer meets its exact condition |
| Building.BuildSucceedsIff | internal/rootfs/builder.go:34-51 | a build succeeds exactly when making the target succeeds and each layer does on the tree left by those before; it counts all layers, and a failure has no result |
| Building.BuildFailsAtFirst | internal/rootfs/builder.go:40-44 | a failing build ends with the target's error, or with the error and tree of the first layer that fails |
| Building.UnloadableFails | internal/rootfs/builder.go:58-63 | a layer that cannot be loaded makes every build that has it fail |
| Building.LoadedConfigIs | internal/rootfs/builder.go:67-71 | only images bring a configuration, and they bring their own |
| Building.BuildGives | internal/rootfs/builder.go:46-48 | entrypoint, command and working directory are those of the last image that sets them |
| Building.LoadedContained | internal/rootfs/builder.go:56-85 | every kind of layer that meets its condition stays inside the target and leaves it a real directory |
| Building.BuildContainedIff | internal/rootfs/builder.go:34-51 | a build of images, tarballs and directories stays inside its target at every moment exactly when each layer it reaches meets its condition |
| Building.PlantedLinkEscapes | internal/rootfs/builder.go:39-49 | a layer with a link and a directory layer with a file below that name: the build succeeds and the file is at the link's target, inside exactly when that is |
| Building.LayerLaysOver | internal/rootfs/builder.go:28-33 | a typed, marker-free layer cannot fail and lays its contents over the tree, later wins |
| Building.BuildLays | internal/rootfs/builder.go:39-49 | building agreeing layers succeeds, counts them, and equals laying tree and configuration over each other in order |
| Building.DedupPreservesBuild | internal/config/normalize.go:57-61 | the deduplicated list builds the same tree, entrypoint, command, working directory and environment map |
| Building.MergeIsLay | internal/oci/config.go:42-78 | merged configurations, field by field: the overlay's entrypoint, command and working directory win when given, environments override by key |
| Building.EnvMapMerge | internal/oci/config.go:42-45 | as a map, a merged environment is the overlay over the base |
| ImageConfigs.EnvKey | internal/oci/config.go:99-106 | the scan returns the text before the first "=" |
| ImageConfigs.MergeEnvLoop | internal/oci/config.go:80-97 | the nested loops equal putting the overlay's entries one by one |
| ImageConfigs.MergeFirst | internal/oci/config.go:42-44 | for every key the overlay's last value wins, other keys keep the base's |
| ImageConfigs.MergeKeys | internal/oci/config.go:80-97 | base positions are kept and new keys follow in first-seen order |
| ImageConfigs.MergeDistinct | internal/oci/config.go:80-97 | keys stay distinct |
| ImageConfigs.MergeAssociatesIff | internal/oci/config.go:80-97 | merging associates around b for all neighbours exactly when b's keys are distinct |
| ImageConfigs.ReadImageConfig | internal/oci/config.go:24-40 | each field is read from its own source field, and an empty list becomes nil |
| ImageConfigs.KeySplits | internal/oci/config.go:99-106 | the key is what precedes the first "=", or the whole entry |
| ImageConfigs.ReadConfigsAssociate | internal/oci/config.go:42-78 | configurations read from images merge associatively when the middle one's environment keys are distinct |
| ImageConfigs.OverEnvAssociatesIff | internal/oci/config.go:74-81 | with nil and empty lists told apart, grouping matters exactly in one corner of empty lists |
| ImageConfigs.MergeConfigAssociates | internal/oci/config.go:46-78 | configurations merge associatively, as exact lists, with nil as identity |
| Layers.ParseCanonical | internal/config/normalize.go:23-54 | parsing gives a canonical triple and the output is that triple printed |
| Layers.ReadsAs | internal/config/normalize.go:18-55 | for every host, name, tag and digest, present or absent: the registry is the host or else Docker Hub's, the name goes below library/ if it is one word there, the tag is the one given or else "latest" |
| Layers.NormalizesTo | internal/config/normalize.go:7-17 | the printed form of each, with these words spelled out |
| Layers.EveryReference | internal/config/normalize.go:18-55 | every string is such a reference |
| Layers.UserImage | internal/config/normalize.go:37-54 | user/name is an image of that user on Docker Hub |
| Layers.ParseRender | internal/config/normalize.go:50-54 | a printed canonical triple parses back to itself |
| Layers.NormalizeIdempotent | internal/config/normalize.go:18-55 | normalizing twice is normalizing once, on every string |
| Layers.NormalizeSameIff | internal/config/normalize.go:18-55 | two references normalize equally exactly when registry, repository and tag agree |
| Layers.DigestIgnored | internal/config/normalize.go:23-26 | a digest plays no part |
| Layers.BareName | internal/config/normalize.go:28-53 | a bare name is an official image of the default registry |
| Layers.PortIsNotTag | internal/config/normalize.go:28-46 | a port belongs to the registry and is not taken for a tag |
| Layers.KeyFaithful | internal/config/normalize.go:67-73 | two layers have the same key exactly when they are of one kind and name the same image or path |
| Layers.DeduplicateLayers | internal/config/normalize.go:57-86 | the result is the keep-last function of the list |
| Layers.KeepLastLoop | internal/config/normalize.go:61-80 | the backward loop with its seen set and backing array, then the reversal |
| Layers.ReverseInPlace | internal/config/normalize.go:81-84 | the swapping loop reverses the kept part in place |
| KeepLasts.KeepLastKeepsLast | internal/config/normalize.go:57-60 | exactly the last occurrence of each key is kept, in the original order |
| KeepLasts.KeepLastKeys | internal/config/normalize.go:57-60 | no key is lost and none is repeated |
| KeepLasts.KeepLastIdempotent | internal/config/normalize.go:57-60 | deduplicating twice is deduplicating once |
| Layers.ComputeCacheKey | internal/rootfs/cache.go:21-35 | the digest is applied to one line per layer |
| Layers.CacheLines | internal/rootfs/cache.go:15-20 | the text fed for an official image and a directory, spelled out |
| Layers.CachePreimageIff | internal/rootfs/cache.go:12-20 | for all lists: the same bytes are fed exactly when the keys, cut before every line that begins like a key, agree |
| Layers.CachePreimageFaithful | internal/rootfs/cache.go:12-20 | when no line inside a key begins with "image:" or "rootfs:", two lists feed the same bytes exactly when their keys agree position by position |
| Layers.OneLineIsWhole | internal/rootfs/cache.go:25-33 | a reference or path without line breaks gives a key with no such line |
| Layers.RootfsCollidesIff | internal/rootfs/cache.go:28-32 | a longer list of directories feeds the same bytes exactly when some path has a later line that begins with "rootfs:" |
| Layers.LineBreakCollides | internal/rootfs/cache.go:28-32 | any two paths joined by such a line feed, as one layer, the bytes of the two |
| PivotMounts.Namespace.CreateMountNamespace | internal/pivot/pivot.go:39-51 | the fresh namespace is made private from "/" down, and exactly so if neither call is refused |
| PivotMounts.Namespace.SetupEssentials | internal/pivot/pivot.go:67-94 | the essentials are mounted in order; it fails exactly when something other than binding /run is refused; private mounts stay private and silent |
| PivotMounts.Namespace.Prepare | internal/pivot/prepare.go:25-66 | a success leaves the prepared namespace; it fails exactly when something other than binding /run is refused; in a fresh namespace no run tells a peer |
| PivotMounts.Namespace.PivotRoot | internal/pivot/pivot.go:96-131 | it succeeds exactly when nothing is refused and pivot_root(2) allows the pivot after "/" was made private |
| PivotMounts.DeviceChangeIsMountPoint | internal/pivot/tmpfs.go:11-24 | when the device comparison says so, the path is the root of a mount |
| PivotMounts.SelfBoundIsMountRoot | internal/pivot/prepare.go:45-61 | after the self-bind step, made or skipped, the new root is a mount point |
| PivotMounts.SelfBoundIsPrivate | internal/pivot/prepare.go:59-61 | the new root and every mount below it are private before the essentials are mounted, also without a fresh namespace |
| PivotMounts.PreparedMountCount | internal/pivot/prepare.go:45-64 | a self-bind is made exactly when the new root shows no change of device, and nothing else is stacked besides the essentials |
| PivotMounts.PreparedQuiet | internal/pivot/pivot.go:32-51 | in a fresh namespace every mount ends up private and no peer group is told of any |
| PivotMounts.PreparedNoShadowing | internal/pivot/prepare.go:36-64 | from any table: new-root proc and sys show the fresh file systems at every depth, dev and run show what the host's show |
| PivotMounts.SwappedOrderShadows | internal/pivot/prepare_linux_test.go:148-175 | essentials first, self-bind after: every path below the new root shows the bare directory |
| PivotMounts.PreparedAllowsPivot | internal/pivot/pivot.go:102-107 | a successful Prepare meets the mount conditions of pivot_root(2) |
| PivotMounts.PivotKeepsBothTrees | internal/pivot/pivot.go:106-124 | each path resolves as it did under the new root, each old path as before under the old root's mount point |
| PivotMounts.PivotedSystem | internal/cli/pivot.go:385-417 | the whole sequence on any starting table: allowed, silent, with /proc, /sys and /dev in place and the host's tree under /mnt/oldroot |
| OldRootCleanup.MountTable.ReadMountTargets | internal/pivot/cleanup.go:56-75 | every target once, in some order |
| OldRootCleanup.SortByLength | internal/pivot/cleanup.go:45 | a permutation with lengths descending |
| OldRootCleanup.NothingLeftBelow | internal/pivot/cleanup.go:16-22 | when a mount's turn comes, nothing below it is mounted any more |
| OldRootCleanup.BelowIsDeeper | internal/pivot/cleanup.go:16-22 | for printed paths, what keeps a mount busy is exactly what is mounted deeper in the tree |
| OldRootCleanup.UnmountUnder | internal/pivot/cleanup.go:33-54 | no failure, and exactly the targets that start with the old root's path are gone; exactly the mounts outside the old root remain if and only if none is a neighbour |
| OldRootCleanup.SlashedPrefixIff | internal/pivot/cleanup.go:39-44 | comparing printed paths character by character compares the components, except that the last may be cut short |
| OldRootCleanup.PrefixIsSubtreeIff | internal/pivot/cleanup.go:39-44 | on printed paths: what the prefix leaves is exactly the mounts outside the old root if and only if no mount goes on, where the old root's path ends, with a longer name |
| OldRootCleanup.NeighbourIsTaken | internal/pivot/cleanup.go:41 | from a table with /mnt/oldroot and /mnt/oldroot2 both are gone, although the second is outside the first |
| WatchdogDevice.Watchdog.OpenWatchdog | internal/postpivot/watchdog_linux.go:117-133 | one attempt, and a second one exactly when the device was missing and the module could be loaded; it succeeds exactly if nothing goes wrong, and counts then |
| WatchdogDevice.Watchdog.EnsureAvailable | internal/postpivot/watchdog_linux.go:104-115 | the device is tried, and left idle whether that succeeds or not |
| WatchdogDevice.Watchdog.ArmPrePivot | internal/postpivot/watchdog_linux.go:164-201 | armed exactly on success with a positive timeout, whose whole seconds, but at least one, are set |
| PivotRun.Host.MakeRoom | internal/cli/pivot.go:171-233 | a tmpfs is mounted, and its unmount deferred, only if the work directory is not a mount and one is wanted |
| PivotRun.Host.CommonChecks | internal/cli/pivot.go:155-278 | the checks every run makes, in order |
| PivotRun.Host.OptionalChecks | internal/cli/pivot.go:280-321 | the checks a configuration asks for, in order |
| PivotRun.Host.TakeDown | internal/cli/pivot.go:334-356 | services if there is an init system to ask and it is wanted, then processes, unless the mode skips both |
| PivotRun.Host.Arm | internal/cli/pivot.go:365-378 | the disarm is deferred exactly when the watchdog was armed |
| PivotRun.Host.Switch | internal/cli/pivot.go:385-438 | prepare, pivot, release the old root unless it is kept, replace: exactly when nothing goes wrong; preparing may fail before the namespace is left, while its mounts still propagate, or later |
| PivotRun.Host.RunDeferred | internal/cli/pivot.go:226-231 | deferred calls, last first: the watchdog ends idle, and the unmount, made after the thread is unlocked, restores the work mounts unless it acts in a namespace apart from the host's |
| PivotRun.Host.RunPivot | internal/cli/pivot.go:75-440 | all runs: replaced exactly when wanted and nothing goes wrong; a dry, contained or unconfirmed run does nothing; checks before destruction, watchdog idle on return, the work directory's mounts as found unless the unmount acts apart from the host, and then with the run's own tmpfs at most |
| PivotRun.NothingDownBeforeChecks | internal/cli/pivot.go:300-332 | in an orderly run every required check precedes every destructive step |
| PivotRun.RequiredIff | internal/cli/pivot.go:155-321 | which checks are made for which configuration, and that room comes before the build and the build before what is staged in it |

## Conditions and departures

- Comments in `internal/oci/extract.go:18-21` speak of what earlier layers contributed. The code
  removes whatever is there when the marker is reached, entries of the same layer included. The
  model follows the code; `MarkersFirstIff` says exactly when the two come to the same.
- Source names that begin with ".wh." are outside the comparison of the loaders
  (`WhiteoutNameDiffers`); every other tree of directories, files and links is inside it.
- The comment at `internal/oci/config.go:42` says non-nil fields win; for the working directory the
  code tests for the empty string. The model follows the code.
- A well-behaved layer (`Changeset.WellBehaved`) is a condition on the lower tree and the list of
  entries alone, not on the states in between. Hard links in it name a file the layer added earlier.
- The target directory is a real directory reached through no link. A target named through a link
  is covered by taking the place the link leads to.
- The methods `ExtractTar`, `ExtractImage` and `BuildRootfs` have no precondition. Their contracts
  apply when the target is such a directory and every entry that is reached meets the exact
  condition of `EntryContainedIff`; ordinary whiteout suffixes always do. For a directory layer,
  what the resulting tree is holds without condition, and containment under the exact condition of
  `VisitContainedIff` on each step, which concerns the links already in the target.
- Mount theorems ask that the process's "/" is not covered by another mount, and for the pivot that
  the root mount hangs on an unshared parent, as pivot_root(2) does.

## Left out

- Splitting strings at slashes: entry names, link targets and paths are given as components.
- Permission bits, ownership, chmod and umask.
- Devices, fifos and sockets: creation errors are swallowed and existing nodes are not replaced.
- Input and output errors, full disks, and a tar stream that breaks off: the latter is a shorter list of entries.
- FileTree.CreateTrunc: does not create the missing target of a dangling link, because the name has just been removed whenever the program calls it (`CopyContainment.FileInto`).
- Extraction.MarkerContainedIff: does not model mount points in the host tree. Removing one stops with EBUSY after emptying it, so that where the target is a mount point itself, a whiteout that names the target stays inside.
- PivotRun.Host.MakeRoom: counts every mount found on the work directory as detected. The program compares device numbers, so it misses a bind mount of the same device and mounts its tmpfs over it.
- Registries, archives, gzip and classification of sources: loading is a parameter of `Building.Build`.
- The source directory of a copy is read-only input: that it might overlap the target is not modelled.
- SHA-256: the digest is a parameter.
- Symbolic links on the paths of mount points, and whether directories to mount on exist: creating them may fail, nothing more.
- What peer namespaces do when told of a mount: only that they are told is recorded.
- The sanity check of the new root and its path lookups, which the orchestrator skips.
- sort.Slice is a method with its contract, on a sequence; equal lengths may come in any order.
- OldRootCleanup.UnmountUnder: covers mount tables without stacked targets and with plain absolute paths, because a hidden mount cannot be named by its path.
- The forced second pass of UnmountOldRoot: under the same assumptions the first pass leaves nothing.
- WatchdogDevice.Watchdog.Disarm: writing the magic byte and closing are taken to succeed, and the driver to honour them.
- Petting the watchdog after the pivot, and its concurrency.
- The contents of the files staged before the pivot, SSH, Tailscale, logging, signals and the dry-run text: each check is one step that may fail.
- The contained mode (`--contain`) beyond the fact that it does none of the run's steps.
