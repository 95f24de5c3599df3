# gtctl: a model of its hard parts, with proofs

gtctl creates GreptimeDB clusters, on Kubernetes through Helm charts or on bare metal as a set of local
processes. Most of it hands work to Helm, to Kubernetes clients and to the operating system. This project
models the parts that carry state, branching or arithmetic of their own and proves what they keep:

- **The bare-metal lifecycle** (`Lifecycle`, `LifecycleSafety`, `LifecycleDrain`, `LifecycleEarlyReturn`,
  `LifecycleCaller`, `HealthChecks`). `Create`
  launches etcd, the metasrvs, the datanodes and the frontends, with health checks in between; every process has
  a waiter goroutine that adds to the wait group, watches the process and may stop the cluster; `Wait` drains the
  group. The model is a step machine whose steps interleave arbitrarily: launches and their failures, etcd
  probes, single polls of a checker pass, process exits, each step of each waiter, signals, the caller's timeout.
  Stage order, wait group and stop causes are one inductive invariant over all runs. `wg.Add(1)` runs inside the
  goroutine, so draining holds only when no waiter is late; `EarlyReturn` gives, for every configuration, the run
  in which `Wait` returns over a running cluster. The caller's context, with the timeout of the command line, bears on
  the downloads only; `LifecycleCaller` proves both that and its effect there.
- **Pid files** (`PidFiles`, `PidOutcomes`). What `Start` and `runBinary` leave in the pids directory is what `cluster get`
  reads, in any directory order. The metasrv rows are the exception: they are keyed by the operator's component
  kind `meta` while the directories are called `metasrv.i`, so they always show `N/A`.
- **Value merging** (`ValueTree`, `HeapMerge`). `mergeMaps` is characterised by what stands at each key path; the
  algebra follows from that, with the exact condition for associativity and for agreement with the one-level merge
  of `MergeYAML`. `HeapMerge` runs both merges on shared maps on the heap and shows that they refine the tree
  functions and that `mergeMaps` writes to no map that existed before.
- **`--set` values** (`KubernetesConfig`). Chunking, conservation of items, and printing and parsing again.
- **The artifact cache** (`Paths`, `Artifacts`, `ArtifactPlaces`, `ArtifactSources`, `ArtifactCache`,
  `ArtifactCoherence`, `ArtifactInstall`). Path cleaning and joining as in Go, the layout of the artifact directories,
  the source of an artifact by region and version, and the cache against fresh downloads over whole histories of requests.
  Every request of a history comes with the world as it then is, so servers may change their answers. The cache key
  holds neither the region nor the time: the cache is coherent exactly when no two requests for one artifact are ever
  served different bytes, whatever the region or the time. A half-finished write is kept and served later;
  `HistoryExactly` says for every history, such writes and changed answers included, when a cached answer is the fresh
  one, and `AnsweredExactly` when there is an answer at all.
- **The chart index** (`ChartIndex`). The clean-up loop deletes from a local slice; `Entries` keeps its length and is
  never assigned. The model gives the whole backing array in closed form and says what readers of `Entries` see
  and exactly when the version chosen from them is a valid one. A version that does not parse is invalid and sorts last.
- **Versions** (`Semver`). Precedence as in sections 10 and 11 of Semantic Versioning 2.0.0, clause by clause, the
  grammar the parser accepts, and the breaking-version test, whose threshold is recognised by its exact spelling only.
- **Addresses and ports** (`Decimal`, `Address`, `LaunchPlan`). `FormatAddrArg` as an exact shift with 64-bit
  wrap-around, the arguments of every component, and when a whole launch is free of port collisions. The default
  addresses collide as soon as there are two frontends.

`Text` holds the string functions the others share. Behaviour of libraries outside the repository is modelled from
their documentation: `strings`, `strconv`, `net`, `path/filepath` and `os/exec` of Go, Masterminds `semver`, Helm's
`registry` and `repo` packages. Failures of the file system, answers of servers, exit statuses, timers and health
probes are parameters or actions: a theorem holds for all of them, except for what its own hypotheses ask of them, such
as an answer that does not change or a write that is not torn. Directory listings and the order in which an archive's
executables are met are parameters as well.

`dafny verify dfyconfig.toml` checks the whole project.

## Where the code does something else than it says

The model follows the code in each case.

- "Wait for all the sub-processes to exit" (pkg/cluster/baremetal/create.go:244): it waits for the waiters that have
  called `Add` so far.
- A cluster whose `Create` failed "has been shutting down" (pkg/cluster/baremetal/create.go:239): nothing stops the
  processes launched so far.
- `MergeYAML` "merges two yaml files" (pkg/utils/file/yaml.go:26): only their top level.
- The clean-up loop is meant to drop invalid chart versions (pkg/artifacts/manager.go:325-337): `Entries` still shows
  them when they stand at the end, and shows some valid ones twice otherwise.
- `Uncompress` lists `.tar.gz` among the extensions (pkg/utils/file/file.go:106): an extension has one dot, so such a
  file is met as `.gz`.
- `BreakingChangeVersion` is the version at which the download URL changes (pkg/artifacts/manager.go:538-539): the same
  version without its `v` counts as older.
- `cluster get` has metasrv rows (pkg/cluster/baremetal/get.go:119): they never show a pid.
- The default addresses are per component and replica (pkg/config/baremetal.go:102-133): a second frontend collides
  with the first.

## Model

| member | source | states |
|---|---|---|
| `LifecycleDrain.InvStep` | pkg/components/run.go:57-95 | every action of `Create`, a waiter, a process or the outside keeps the whole invariant |
| `LifecycleDrain.Safety` | pkg/cluster/baremetal/create.go:34-122 | the invariant holds in every reachable state of every interleaving |
| `LifecycleDrain.StageGating` | pkg/cluster/baremetal/create.go:55-63 | in every reachable state: a launched metasrv implies etcd was ready, a launched datanode that one single checker pass found all launched metasrvs healthy, a launched frontend the same of the datanodes; at most ten probes found no leader; what is launched is a beginning of the plan |
| `LifecycleSafety.OrderStep` | pkg/components/metasrv.go:64-105 | each step of launching, probing and polling keeps the stage order |
| `LifecycleDrain.WaitGroupCounts` | pkg/components/run.go:76-79 | the wait group counter is the number of waiters past `Add` and before `Done`, so `Done` never makes it negative |
| `LifecycleDrain.StopCauses` | pkg/components/run.go:79-94 | the context is done if and only if a signal came or some waiter of a process that was not killed or interrupted saw a failure and stopped; a finished waiter of a failed process implies it is done |
| `LifecycleDrain.StopIsFinal` | pkg/cluster/baremetal/cluster.go:94 | once done the context stays done through every continuation, and no process is started any more |
| `LifecycleDrain.CreatedExactly` | pkg/cluster/baremetal/create.go:111-121 | after a nil `Create` exactly etcd and every planned replica was launched, each once and in order |
| `LifecycleDrain.ZeroMeansFinished` | pkg/cluster/baremetal/create.go:251-252 | when `wg.Wait` sees zero, all waiters have finished if and only if none is still to call `Add` |
| `LifecycleDrain.DrainedUnlessLate` | pkg/cluster/baremetal/create.go:251-261 | `Wait` returns only with the context done, and only after every planned process has exited and its waiter finished, those whose waiter was late excepted |
| `LifecycleDrain.CleanEndBlocks` | pkg/cluster/baremetal/create.go:251-256 | once all waiters have finished, `Wait` can go on without a further signal if and only if a signal came or some process failed: after a clean end of all processes it blocks |
| `LifecycleDrain.StuckExactly` | pkg/cluster/baremetal/create.go:34-66 | in every reachable state short of the return of `Wait` or a failed `Create`, nothing can happen without the outside world if and only if `wg.Wait` is over, all waiters have finished and the context is not done: the clean end is the only hang |
| `LifecycleDrain.FailedExactly` | pkg/cluster/baremetal/create.go:34-66 | a run ends with a failed `Create` if and only if one of its steps is a failed acquisition, launch or probe, the last probe without a leader, or a cancelled checker |
| `LifecycleDrain.FailableExactly` | pkg/cluster/baremetal/create.go:55-63 | in every reachable state, `Create` can fail in its next step if and only if it is acquiring, launching or probing, or a checker waits with the context done |
| `LifecycleDrain.FailedLaunchLeaves` | pkg/components/run.go:57-74 | a process that was started before its launch failed runs on without a waiter, and nothing else changes |
| `LifecycleDrain.ProcessEnds` | pkg/components/run.go:76-95 | a process that ends and its whole waiter leave the wait group as it was, and stop the cluster exactly if the waiter saw a failure |
| `LifecycleDrain.ReportsExactly` | pkg/components/run.go:79-87 | a waiter is told a failure of a process that failed, nothing of one killed or interrupted, success or a failure of its own of one that ended well |
| `LifecycleDrain.OthersKeepCreate` | pkg/components/run.go:76-95 | processes, waiters and signals never move `Create`, and only the caller ends the caller's context |
| `LifecycleEarlyReturn.EarlyReturn` | pkg/components/run.go:76-78 | for every configuration some run returns from `Wait` while every planned process is running |
| `LifecycleEarlyReturn.OrderlyReturn` | pkg/cluster/baremetal/create.go:244-261 | for every configuration some run returns from `Wait` as meant: no waiter late, every planned process ended |
| `LifecycleEarlyReturn.FailureLeavesEtcd` | pkg/cluster/baremetal/create.go:58-63 | for every configuration some `Create` fails with etcd running and the context not done |
| `LifecycleEarlyReturn.FailureLeavesCluster` | pkg/cluster/baremetal/create.go:228-242 | with a frontend to launch, some `Create` fails with etcd, all metasrvs and all datanodes running and the context not done |
| `LifecycleCaller.CallerIrrelevant` | pkg/cluster/baremetal/create.go:111-122 | past the downloads, a sequence of actions is a run if and only if it is one without the ends of the caller's context, and to the same state |
| `LifecycleCaller.TimedOutLaunchesNothing` | pkg/cluster/baremetal/create.go:156-164 | if the caller's context ends before the first download and no binary is at hand, no process is ever launched |
| `LifecycleCaller.TimedOutLaunchesOnlyEtcd` | pkg/cluster/baremetal/create.go:100-107 | if it ends after etcd's binary is there and before the greptime download, and that binary is not at hand, nothing but etcd is ever started |
| `LifecycleCaller.CallerMatters` | pkg/artifacts/manager.go:234-245 | a download and a launch that are a run from the start are none after a timeout |
| `HealthChecks.CheckEtcdHealth` | pkg/cluster/baremetal/create.go:177-226 | nil if and only if etcdctl is absent, or one of the first ten probes finds a leader and none before it fails |
| `HealthChecks.IsRunning` | pkg/components/metasrv.go:136-161 | true if and only if every replica answers well |
| `HealthChecks.CheckStatus` | pkg/components/metasrv.go:92-107 | over any turns of the select: nil if and only if a tick finds all replicas healthy before any cancellation, an error if and only if a cancellation comes first |
| `HealthChecks.ProbesAgree` | pkg/cluster/baremetal/create.go:189-225 | for any answers, the machine's single probe steps reach the next stage exactly when the loop returns nil, and fail otherwise |
| `HealthChecks.PassAgrees` | pkg/components/datanode.go:111-121 | for any health of the replicas, a pass taken step by step ends the stage exactly when the loop says all are running |
| `HealthChecks.ChecksAgree` | pkg/components/datanode.go:107-123 | for any turns of the select, the machine's steps end in the next stage, in failure or still waiting as that loop says, and leave every process as it was |
| `HealthChecks.CancelledExactly` | pkg/components/metasrv.go:102-103 | a waiting checker can fail in its next step if and only if the context is done, and that step changes nothing but the phase |
| `PidFiles.RunBinary` | pkg/components/run.go:42-74 | on success the pid file holds the pid; after a failed start the directory keeps an older pid file, after a failed write it holds the part written |
| `PidFiles.Component.Start` | pkg/components/datanode.go:67-105 | launches the replicas in order up to the first failure; nil exactly if all started and the checker ended well; directory fields grow by one entry per replica |
| `PidFiles.Create` | pkg/cluster/baremetal/create.go:34-175 | nil if and only if both binaries were there, all checks went well and every planned process ran; then each has a pid file with its pid; on a failure, what the stages reached so far left |
| `PidFiles.CreateLaunchesPlan` | pkg/cluster/baremetal/create.go:55-63 | `Create` is nil if and only if both binaries were there, all checks went well and the whole plan was launched, as one sequence |
| `PidOutcomes.CreateLeaves` | pkg/cluster/baremetal/create.go:55-63 | however `Create` ends, each planned process whose stage was entered and whose earlier replicas run leaves in its directory what its own launch did, and the entry of every other one stays as it was |
| `PidOutcomes.CreateSpares` | pkg/components/run.go:65-74 | no `Create` touches a directory that belongs to no planned process |
| `PidFiles.NamesDiffer` | pkg/components/metasrv.go:65 | no two processes of a plan share a directory name |
| `PidFiles.LaunchedPids` | pkg/components/run.go:61-74 | after a successful launch each process has a pid file with its pid; other entries are untouched |
| `PidFiles.CollectPids` | pkg/cluster/baremetal/get.go:140-163 | the walk returns the collected map of the listed directories |
| `PidFiles.CollectedExactly` | pkg/cluster/baremetal/get.go:143-158 | a name is found if and only if it and every directory listed before it has a pid file; the value is the file's content |
| `PidFiles.ReadBack` | pkg/cluster/baremetal/get.go:140-163 | after a nil `Create` on a fresh directory the walk finds exactly the launched names with the pids they were started with, in any listing order |
| `PidFiles.ReadBackFrom` | pkg/cluster/baremetal/get.go:140-163 | on a directory used before, a launched process is found if and only if every older entry listed before it has a pid file; its pid is then the new one |
| `PidFiles.Rows` | pkg/cluster/baremetal/get.go:105-115 | one row per replica, with the pid cell of its key |
| `PidFiles.ShownPids` | pkg/cluster/baremetal/get.go:117-121 | frontend, datanode and etcd rows show the right pid, metasrv rows always `N/A` |
| `ValueTree.MergeAt` | pkg/helm/values.go:86-103 | at every key path the merge has what `b` has there, nothing below a leaf of `b`, and what `a` has otherwise |
| `ValueTree.MergeUnique` | pkg/helm/values.go:86-103 | no other tree meets that description |
| `ValueTree.MergeIdempotent` | pkg/helm/values.go:86-103 | merging a tree with itself changes nothing |
| `ValueTree.MergeAbsorbs` | pkg/helm/values.go:86-103 | merging the same override twice is merging it once |
| `ValueTree.MergeIdentity` | pkg/helm/values.go:86-103 | the empty map is a two-sided identity |
| `ValueTree.MergeYieldsSecond` | pkg/helm/values.go:86-103 | the override alone is the result if and only if it covers every path of the base |
| `ValueTree.MergeAssociative` | pkg/helm/values.go:86-103 | the two groupings of three trees agree if and only if no leaf of the second between a map of the first and a map of the third hides something the third does not cover |
| `ValueTree.AssociativityWitness` | pkg/helm/values.go:92-100 | map, leaf and map under one key: the groupings differ |
| `ValueTree.ShallowAgrees` | pkg/utils/file/yaml.go:27-39 | the one-level merge equals the deep one if and only if every map of the source covers the map it replaces |
| `ValueTree.ShallowWitness` | pkg/utils/file/yaml.go:39 | one shared key with maps of different inner keys: the one-level merge drops the inner key the deep one keeps |
| `ValueTree.ShallowAt` | pkg/utils/file/yaml.go:39 | at every key path the one-level merge has what the source has there if the path begins with a key of the source, and what the destination has otherwise |
| `ValueTree.ShallowUnique` | pkg/utils/file/yaml.go:39 | no other tree meets that description |
| `HeapMerge.MergeMaps` | pkg/helm/values.go:86-103 | on shared heap maps: the result is new, shows the tree merge, shares every unmerged entry with the inputs, and nothing older is written |
| `HeapMerge.MergeDocuments` | pkg/utils/file/yaml.go:27-39 | `maps.Copy` overwrites the destination document with the one-level merge |
| `KubernetesConfig.SetValues.Parse` | pkg/config/kubernetes.go:41-90 | the three fields become the joined items of their category, or keep their value if there are none; on an error nothing changes |
| `KubernetesConfig.ChunkingInvariance` | pkg/config/kubernetes.go:48-56 | two raw values parse like their comma-joined concatenation if and only if neither is empty, or another empty value fails both |
| `KubernetesConfig.ItemFiledOnce` | pkg/config/kubernetes.go:56-76 | every item lands in exactly one category, in order, and counts add up |
| `KubernetesConfig.FileExactly` | pkg/config/kubernetes.go:56-75 | an item is filed as the bare name of a category, behind a category's prefix, or whole for the cluster if it is neither: if and only if, case by case |
| `KubernetesConfig.FileNamed` | pkg/config/kubernetes.go:58-72 | a known prefix is cut off and decides the category |
| `KubernetesConfig.FileOther` | pkg/config/kubernetes.go:73-74 | anything else is kept whole for the cluster |
| `KubernetesConfig.ClassifyPadded` | pkg/config/kubernetes.go:57 | spaces on either side of an item change nothing, and an item without any is filed as it stands |
| `KubernetesConfig.SpacesAroundCommas` | pkg/config/kubernetes.go:49-57 | spaces around the commas of a raw value change nothing, if and only if they do not alone make it non-empty or another empty value fails both |
| `KubernetesConfig.FieldsExactly` | pkg/config/kubernetes.go:79-87 | a field without items keeps its value, and splitting any other at the commas gives its items back in order |
| `Text.TrimExactly` | pkg/config/kubernetes.go:57 | trimming takes the spaces off both ends and nothing else |
| `Text.TrimParts` | pkg/config/kubernetes.go:57 | every string is its trimmed part between two runs of spaces |
| `KubernetesConfig.PrintParse` | pkg/config/kubernetes.go:41-90 | printing any three fields with their prefixes and parsing afresh gives them back if and only if no item ends in a space |
| `KubernetesConfig.ParsePrintParse` | pkg/config/kubernetes.go:41-90 | parse, print, parse reproduces the fields of every successful parse |
| `Paths.CleanIdempotent` | pkg/metadata/manager.go:92-94 | cleaning a path twice is cleaning it once, and keeps its elements |
| `Paths.CleanEqual` | pkg/metadata/manager.go:121-127 | two paths clean to the same if and only if they reach the same elements from the same start |
| `Paths.CleanRules` | pkg/metadata/manager.go:121-127 | doubled slashes and `.` elements do not count, a `..` takes back the proper element before it, and none is left at the root |
| `Paths.ExtExactly` | pkg/utils/file/file.go:101-102 | the extension is a given one-dot suffix if and only if the path ends in it |
| `Paths.JoinUnder` | pkg/metadata/manager.go:121-127 | joining proper elements to a directory appends them and nothing else |
| `Paths.DirBase` | pkg/artifacts/manager.go:228 | `Dir` and `Base` take a joined path apart |
| `ArtifactPlaces.WorkingDirProper` | pkg/metadata/manager.go:85-97 | the working directory is a clean proper directory whatever the home directory is |
| `ArtifactPlaces.PlacesDistinct` | pkg/metadata/manager.go:117-134 | different artifact directories, or files in them, have different paths |
| `ArtifactPlaces.AllocatedText` | pkg/metadata/manager.go:117-134 | the allocated path as text: working directory, `artifacts`, kind, name, version and `pkg` or `bin` |
| `ArtifactPlaces.AllocationInjective` | pkg/metadata/manager.go:117-134 | allocated paths are equal if and only if type, name, version and, for binaries, the install flag are |
| `ArtifactPlaces.AllocationExactly` | pkg/metadata/manager.go:117-134 | for arbitrary names and versions, two allocated paths are equal if and only if the resolved elements are |
| `ArtifactPlaces.BinaryInInstallDir` | pkg/artifacts/manager.go:221-229 | the binary path returned from the package directory lies directly in the allocated install directory |
| `ArtifactPlaces.VersionEscapes` | pkg/metadata/manager.go:120-121 | a version with `..` reaches another chart's directory, so injectivity needs single path elements |
| `Artifacts.Disk.DownloadTo` | pkg/artifacts/manager.go:182-232 | result and disk after a call, for each cache decision, server answer and failing step; a successful call for a binary returns its path in the install directory, for anything else the artifact file's path, and there a hit changes nothing and a download leaves what was served in the downloaded file |
| `Artifacts.Disk.InstallBinaries` | pkg/artifacts/manager.go:425-462 | succeeds if and only if the install step does not fail, the path names a file, and that unpacks as the end of its name says: `.zip` as a zip archive, `.tgz` or `.gz` as a gzipped tar archive; in a proper directory each name then holds the last executable of that name on the walk over the unpacked tree, and every other name what it held |
| `Artifacts.PlacedAt` | pkg/artifacts/manager.go:442-457 | the same for any list of executables met on the walk, name by name |
| `Artifacts.UnpackedExactly` | pkg/utils/file/file.go:101-111 | what a file unpacks to, by the way its name ends; `.tar.gz` is never the extension of a path, `.gz` is |
| `ArtifactInstall.BinaryPresent` | pkg/artifacts/manager.go:221-229 | the returned binary path names a file if and only if the archive holds an executable called like the artifact, whose bytes it then has, or one was there before |
| `ArtifactInstall.ServeExactly` | pkg/artifacts/manager.go:182-232 | on any disk that histories leave, under any answers and failures: a request is answered if and only if its bytes come from the cache or are served and written without a fault, and, for a binary, installing does not fail and they unpack |
| `ArtifactInstall.AnsweredExactly` | pkg/artifacts/manager.go:182-232 | after every history an undisturbed request for something served is answered if and only if it is for a chart or the archive unpacks, the archive being what the history holds if the cache is asked, and what is served otherwise |
| `ArtifactInstall.OpensExactly` | pkg/artifacts/manager.go:378-421 | that archive is read as zip for etcd on macOS, and as gzipped tar for every other binary |
| `ArtifactInstall.NamelessFails` | pkg/artifacts/manager.go:151-177 | a request for any other binary is never answered |
| `ArtifactSources.SourceFileName` | pkg/artifacts/manager.go:116-180 | the file name of a source is one path element and does not depend on the region |
| `ArtifactSources.ChartSource` | pkg/artifacts/manager.go:132-147 | file name and URL of a chart, from region, name and version |
| `ArtifactSources.EtcdSource` | pkg/artifacts/manager.go:378-399 | the etcd binary has a source on macOS and Linux only; its URL by region and version; the file name ends in `.zip` on macOS and in `.gz` on Linux |
| `ArtifactSources.GreptimeSource` | pkg/artifacts/manager.go:401-421 | the greptime binary has a source if and only if the version looked up parses; its URL by region and version; the file name ends in `.gz` for a breaking version and in `.tgz` for an older one |
| `ArtifactSources.RegionOfURL` | pkg/artifacts/manager.go:132-175 | a source has a URL of the mirror if and only if it is of the region, and only etcd's chart from elsewhere is pulled from the registry |
| `ArtifactSources.VersionResolved` | pkg/artifacts/manager.go:124-130 | an empty version and `latest` mean what the version service says, any other is taken as it is |
| `ArtifactSources.PulledFile` | pkg/artifacts/manager.go:208-214 | a chart pulled from the registry lands on the path that is returned and looked up later |
| `ArtifactCache.HoldingStep` | pkg/artifacts/manager.go:182-232 | what any request, under any answers and failures, does to the directory and the file of any artifact, told without disk or paths |
| `ArtifactCoherence.ServeCoherent` | pkg/artifacts/manager.go:182-232 | where no two requests for one artifact are ever served different bytes, one request, whatever its region, time, flags and failures short of a torn write, keeps the cache coherent |
| `ArtifactCoherence.CacheCoherent` | pkg/artifacts/manager.go:182-232 | under the same condition, after any such history from an empty disk a cached call gives the result and the disk a fresh download would |
| `ArtifactCoherence.CoherentExactly` | pkg/artifacts/manager.go:182-206 | that holds for all histories and calls if and only if no two requests for one artifact are ever served different bytes, whatever the region or the time |
| `ArtifactCoherence.CoherentStatically` | pkg/artifacts/manager.go:182-206 | while the world does not change, it holds if and only if regions do not serve different bytes |
| `ArtifactCoherence.RepublishedStale` | pkg/artifacts/manager.go:185-192 | an artifact served anew with other bytes under its old version is answered from the cache with the old ones |
| `ArtifactCoherence.RegionFreeIsNotEnough` | pkg/artifacts/manager.go:185-192 | a witness: regions that agree at either moment, and a cached answer unlike the fresh one |
| `ArtifactCoherence.TornWritePoisons` | pkg/artifacts/manager.go:256-264 | a write that fails half way makes the next cached call differ from a fresh one |
| `ArtifactCoherence.LikeFreshExactly` | pkg/artifacts/manager.go:183-219 | in any state whose artifact file, if there is one, is a file in its directory, a cached call is like a fresh one if and only if the file is absent or holds what would be served |
| `ArtifactCoherence.HistoryExactly` | pkg/artifacts/manager.go:182-232 | after every history, torn writes, differing regions and changing servers included, that is so if and only if the history, told without disk or paths, holds nothing or what the server has now |
| `ArtifactCoherence.OverwrittenRepairs` | pkg/artifacts/manager.go:200-219 | from when bytes no longer differ, an undisturbed uncached download repairs whatever came before it, for all regular histories after it |
| `ChartIndex.DeleteAt` | pkg/artifacts/manager.go:334 | `append(cvs[:idx], cvs[idx+1:]...)` on the shared array, including the cell it leaves behind |
| `ChartIndex.CleanUp` | pkg/artifacts/manager.go:325-337 | the local slice's length and the whole backing array after the loop, and every entry's API version |
| `ChartIndex.LocalSlice` | pkg/artifacts/manager.go:325-337 | the local slice is the stable filter of nil and valid entries; every cell still holds an original entry |
| `ChartIndex.SweptShape` | pkg/artifacts/manager.go:325-337 | the array is the kept entries, copies of the last kept one, then the invalid entries that stood at the end |
| `ChartIndex.InvalidSurvives` | pkg/artifacts/manager.go:325-339 | readers of `Entries` still meet an invalid version if and only if the last one was invalid |
| `ChartIndex.AlwaysValid` | pkg/artifacts/manager.go:325-356 | every order the sort may leave puts a valid version first if and only if each invalid entry left over is older than some kept entry |
| `ChartIndex.SometimesValid` | pkg/artifacts/manager.go:325-356 | some such order does if and only if each entry left over is not newer than some kept entry |
| `ChartIndex.ChosenValidExactly` | pkg/artifacts/manager.go:325-356 | without ties between the two, the version chosen is valid if and only if each entry left over is older than some kept entry |
| `ChartIndex.LatestUnaffected` | pkg/artifacts/manager.go:339-356 | the version chosen from `Entries` is as new as one chosen from the filtered list if and only if each entry left over is not newer than some kept entry |
| `ChartIndex.DescendingExactly` | pkg/artifacts/manager.go:339 | the order of the sort: what parses stands before what does not, and no version stands behind a lesser one |
| `ChartIndex.LatestInvalid` | pkg/artifacts/manager.go:325-356 | a witness: a last entry that is invalid and newer than all others is chosen |
| `ChartIndex.LatestExactly` | pkg/artifacts/manager.go:325-362 | clean-up, sort and choice together: a version is chosen if and only if the first one has a URL; nothing still visible is newer; if it is invalid, it was left over and no kept entry is newer |
| `Semver.PrecedenceOrder` | pkg/utils/semver/semver.go:25-37 | precedence is a strict order, total up to build metadata, over arbitrary pre-release identifiers |
| `Semver.CoreDecides` | pkg/utils/semver/semver.go:36 | the first difference among major, minor and patch decides, the greater number being greater |
| `Semver.PreReleaseBeforeRelease` | pkg/utils/semver/semver.go:36 | with the same core a pre-release is less than the release, and the release less than neither |
| `Semver.PreReleasesExactly` | pkg/utils/semver/semver.go:36 | with the same core, one pre-release is less than another if and only if at some position, all identifiers before it being equal, it ends or has the lesser identifier |
| `Semver.LessIdentExactly` | pkg/utils/semver/semver.go:36 | numbers compare by value and come before text; text compares at its first differing character, a proper prefix first |
| `Semver.SectionChain` | pkg/utils/semver/semver.go:36 | the chain of section 11 from `1.0.0-alpha` to `1.0.0` |
| `Semver.ReadsExactly` | pkg/utils/semver/semver.go:26-34 | a text is read as a version if and only if it is an optional `v`, one to three 64-bit numbers, identifiers without leading zeros and build metadata that mean that version |
| `Semver.ParsesExactly` | pkg/utils/semver/semver.go:26-34 | some text is read as a version if and only if its numbers fit 64 bits and its identifiers are allowed, and then writing and parsing gives it back |
| `Semver.ShortCores` | pkg/utils/semver/semver.go:26-34 | a missing minor or patch number is zero |
| `Semver.BreakingUpwardClosed` | pkg/artifacts/manager.go:542-549 | a version newer than a breaking one is breaking |
| `Semver.BreakingExactly` | pkg/artifacts/manager.go:542-549 | the answer is "at or above the threshold" if and only if the version is not another spelling of the threshold |
| `Semver.BreakingByNumbers` | pkg/artifacts/manager.go:539-549 | the answer without an order: a core above `0.4.0`, the release `0.4.0`, a pre-release of it later than `nightly-20230802`, or the threshold's own spelling; an error if and only if the version does not parse |
| `Semver.ReleaseBreaking` | pkg/artifacts/manager.go:539-549 | `v0.4.0` is breaking and `v0.3.9` is not |
| `Semver.BreakingWitness` | pkg/artifacts/manager.go:539-548 | the threshold without its `v` is not recognised as breaking |
| `Decimal.AtoiItoa` | pkg/components/utils.go:35-37 | decimal text of any 64-bit int reads back as that int |
| `Decimal.AtoiExactly` | pkg/components/utils.go:35 | an optional sign and digits read as their value, cut off at the ends of the 64-bit range |
| `Decimal.AtoiOther` | pkg/components/utils.go:35 | any other text reads as zero or, if its digits leave the range first, as an end of it |
| `Address.SplitJoined` | pkg/components/utils.go:34-37 | splitting a joined host and port gives them back, brackets included |
| `Address.SplitExactly` | pkg/components/utils.go:34 | an address is split if and only if it is a host without a colon, or one in brackets, a colon and a port, none with further brackets, and then into these |
| `Address.FormatText` | pkg/components/utils.go:27-38 | the text of the result: `host:port` for a host without a colon, brackets for one with, and only the shift behind a colon for an address that cannot be split |
| `Address.FormatShifts` | pkg/components/utils.go:27-38 | for every address the result has the same host and the decimal of port plus node id |
| `Address.FormatAdds` | pkg/components/utils.go:27-38 | shifting by `i` and then `j` is shifting by `i + j` |
| `Address.FormatInjective` | pkg/components/utils.go:27-38 | different node ids give different addresses |
| `LaunchPlan.BuildMetaSrvArgs` | pkg/components/metasrv.go:110-134 | what every flag of a metasrv replica is given: `--http-addr` and `--bind-addr` the configured addresses, with the same host and the port shifted by the node id, or nothing for an empty one; `--log-level`, `--store-addr`, `--server-addr` and `-c` their configured values, and nothing for `-c` if it is empty |
| `LaunchPlan.BuildDatanodeArgs` | pkg/components/datanode.go:126-150 | the same for a datanode replica: `--http-addr` and `--rpc-addr`, and `--log-level`, `--node-id`, `--metasrv-addr`, `--data-home` and `-c` |
| `LaunchPlan.BuildFrontendArgs` | pkg/components/frontend.go:90-117 | the same for a frontend replica: its five addresses under their own flags, and `--log-level`, `--metasrv-addr`, `-c` and `--user-provider` |
| `LaunchPlan.GivenExactly` | pkg/components/utils.go:41-50 | for any list of words and flags: looking up a flag among their arguments finds the values that list gives it, and nothing else |
| `LaunchPlan.LaunchCollisionFree` | pkg/components/utils.go:41-50 | the arguments of all replicas of a launch name pairwise different ports if and only if the port intervals of the configuration are disjoint |
| `LaunchPlan.CollisionFree` | pkg/components/utils.go:27-38 | the ports of any list of slots are pairwise distinct if and only if the intervals from base to base plus replicas are disjoint |
| `LaunchPlan.PortsInRange` | pkg/components/utils.go:41-50 | all ports are TCP ports if and only if each slot's last one is |
| `LaunchPlan.DefaultScales` | pkg/config/baremetal.go:102-133 | the default addresses are collision-free if and only if there are at most 99 metasrvs, 200 datanodes and one frontend |

## Left out

- Kubernetes and Helm clients, rendering of charts, connectors, plugins, spinner, tables and commands: calls into libraries, or user interface.
- Real time: tickers, sleeps and timeouts are steps that may happen at any moment.
- Progress: no claim says that a health check or a drain ends, only what holds if it does.
- The lines `etcdctl` prints and the index of their fields: one probe answers leader, no leader or failure.
- Reuse of the wait group after it was seen at zero, where Go may panic: the model lets late waiters add to it.
- `Wait` after a failed `Create`: it logs and returns at once, so the failed state has no further steps of `Create`.
- PidFiles.RunBinary: the log file is not tracked, and spawning the waiter is a step of the lifecycle machine, not of this method.
- PidFiles.Component.Start: the checker loop is one outcome here and single steps in the lifecycle machine; directory fields after a failed launch are bounded but not exact, as etcd appends them at another point than the others; data, WAL and home directories and log files are not tracked.
- PidFiles.CollectPids: a missing pids directory, on which the walk's callback would dereference a nil entry, directories nested deeper and components called `pids` are not modelled.
- YAML and JSON decoding, `strvals`, struct tags: merging starts from decoded trees, lists being leaves.
- HeapMerge.MergeDocuments: a destination document that decodes to a nil map, on which a copy of any entry panics, is not modelled; such a source document is.
- KubernetesConfig.ParsePrintParse: printing is not part of the program; it stands for writing the flags the user would write.
- HTTP and registry protocols, archive formats and file permissions: a server answers with bytes or not, an archive unpacks to executables or not.
- Artifacts.Disk.InstallBinaries: a failing install is one step that leaves the install directory alone; renaming onto a directory is not modelled.
- Artifacts.Disk.EnsureDir: creates the directory itself; parent directories are not tracked.
- ChartIndex.CleanUp: the chart metadata checks other than the API version are one flag per entry; an API version name is not checked further.
- ChartIndex.LatestExactly: the sort is any descending arrangement of the same entries; nil entries, on which the sort would panic, are excluded, and several versions that do not parse count as equally old, where the library's comparison contradicts itself.
- ArtifactSources.PulledFile: the tag pulled is the version asked for, as it is for a version that parses; a version constraint, which Helm resolves to another tag and file name, is not modelled.
- ArtifactCoherence.CoherentExactly: names and versions are single path elements, as `ArtifactPlaces.VersionEscapes` shows they must be for the cache key to be one.
- LaunchPlan.CollisionFree: hosts are ignored, as two addresses with one port may still coexist on different hosts; ports outside the addresses, such as etcd's own, are not counted.
- Validation tags of the configuration: ports and replica counts are taken to be in range where a theorem says so.
