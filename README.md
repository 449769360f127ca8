# Latency-aware SDN controller core, modelled in Dafny

This project models the computational core of a software-defined-networking
controller. The controller routes flows through a data-centre topology by
predicted latency and link load. It also models the scripts that build the
benchmark topologies and read back their results. What the model covers:

- **Node names and addresses.**
  - `_sort_pair`, the canonical form of an undirected link (module `NodePair`).
  - Decimal and hexadecimal text (`Text`).
  - The id ↔ IP and id ↔ MAC conversions (`Address`).
- **Topology builders.**
  - `CounterIterator` (`Counter`), which hands out host and switch numbers.
  - The shared name and link helpers (`Topology`).
  - One module per `topocreate*.py` builder: `Clos`, `Clos5`, `Grid`,
    `SimpleTree`, `FatTree`, `BCube`, `BCubeSwitched`, `DCell`,
    `DCellSwitched`, `Big`.
  - The Mininet script renderer (`Render`).
- **Graph algorithms** of graphtools.py (`Graph`):
  - the adjacency map built from a topology;
  - the transition map;
  - the exhaustive path search;
  - Dijkstra with its path reconstruction and memoising wrappers.
- **The controller's data model** (latencycontroller.py):
  - the path filter and the alternative-path table (`Routes`);
  - the JSON reload (`PyJson`);
  - the link-keyed stores and their proxies (`Stores`);
  - the per-switch flow ledgers and their arithmetic (`Ledger`);
  - the simulatable network with path surgery, normalisation and rate
    prediction (`Network`);
  - the weighted path aggregate (`Weighted`);
  - Python's insertion-ordered `dict` (`Dict`).
- **Result tooling:**
  - `parse_state` of the state viewer (`Viewer`);
  - `build_table` (`Table`);
  - `make_host_pairs` (`Autotest`);
  - the list helpers and axis ordering of the box-plot script (`Boxplot`).

Code that changes state step by step is modelled imperatively:
- the counters and the link store are classes;
- the builders, Dijkstra, the path loops and `build_table` are methods with
  loop invariants;
- the table is a two-dimensional array.

Each method is proved against a specification function, and the lemmas
state the properties of that function. Pure code is modelled as functions
and lemmas.

## Model

| member | source | states |
|---|---|---|
| NodePair.Name | sortundirectednodepair.py:7-15 | a node's text is its kind letter followed by a decimal number, and that number reads back as the node's number |
| NodePair.NameInjective | sortundirectednodepair.py:7-15 | two node ids have the same text exactly when they are the same node |
| NodePair.ParseNodeId | sortundirectednodepair.py:11 | reading `a[0]` and `int(a[1:])` succeeds exactly on texts of length at least two with an integer suffix |
| NodePair.ParseName | sortundirectednodepair.py:11 | parsing a node's text gives the node back |
| NodePair.HostName | topocreatebcube.py:32 | `f"h{n}"` is a host id with number n |
| NodePair.SwitchName | topocreatebcube.py:31 | `f"s{n}"` is a switch id with number n |
| NodePair.SortPair | sortundirectednodepair.py:7-15 | the result is the pair in one of its two orders; a host–switch pair is turned switch first; other mixed kinds keep their order; two nodes of one kind come in ascending number order |
| NodePair.SortPairIdempotent | sortundirectednodepair.py:7-15 | a sorted pair is already canonical, so sorting again changes nothing |
| NodePair.SortPairSymmetric | sortundirectednodepair.py:7-15 | for host and switch ids both orders of a pair give the same link |
| NodePair.SortPairOtherKindsKeepOrder | sortundirectednodepair.py:10-11 | two ids of kinds other than host and switch are not made symmetric: each order is kept |
| NodePair.SortPairText | sortundirectednodepair.py:7-15 | on raw strings: IndexError on an empty string; ValueError when two same-kind names have a suffix that is not an integer; otherwise the same ordering rules |
| NodePair.SortPairTextNames | sortundirectednodepair.py:7-15 | on the text of two node ids, the string version orders them exactly as SortPair does |
| NodePair.SortPairTextKeepsEqualSuffixes | sortundirectednodepair.py:11-14 | `s07` and `s7` compare equal, so each keeps its order: the string version is not symmetric |
| Text.NatToString | id2ip.py:23 | `str(n)` is a non-empty run of decimal digits with no leading zero |
| Text.NatToStringValue | id2ip.py:23 | the digits of `str(n)` have the value n |
| Text.IntToStringRoundTrip | id2ip.py:23-27 | `int(str(i)) == i` for every integer |
| Text.IntToStringInjective | id2ip.py:23 | distinct integers render to distinct texts |
| Text.IntToStringHasNoChar | id2ip.py:23 | a rendered integer holds no character other than digits and `-`, so no `.` or `:` |
| Text.TaggedNameSuffix | sortundirectednodepair.py:11 | a letter followed by `str(n)` has that letter first and reads back as n after it |
| Text.NatToHex | id2ip.py:31 | the digits of `hex(n)` after `0x` are lower-case hex digits |
| Text.NatToHexValue | id2ip.py:31-35 | `int(hex(n)[2:], 16) == n` |
| Text.Split | id2ip.py:27 | `s.split(sep)` is non-empty and no field holds the separator |
| Text.SplitJoin | id2ip.py:23-27 | splitting a join gives the parts back when no part holds the separator |
| Address.IdToList | id2ip.py:9-14 | `id2lst` gives three components; the second is a byte and the third lies in 1..254 |
| Address.ListToId | id2ip.py:17-18 | `lst2id` raises IndexError exactly when there are fewer than three components |
| Address.ListRoundTrip | id2ip.py:9-18 | `lst2id(id2lst(s)) == s` for every integer id |
| Address.FirstComponentBound | id2ip.py:11 | the first component fits a byte exactly while the id is below 256·256·254 |
| Address.DecimalFieldsParse | id2ip.py:23-27 | the decimal fields of a component list parse back to that list |
| Address.IpRoundTrip | id2ip.py:21-27 | `ip2id(id2ip(s)) == s` for every integer id |
| Address.HostAddressRoundTrip | id2ip.py:21-27 | host `hN` gets address `id2ip(N-1)`, and reading the address back names `hN` again |
| Address.FirstHostAddress | id2ip.py:21-23 | `id2ip(0)` is `10.0.0.1` |
| Address.HexByteAsWrittenIsZero | id2ip.py:30-31 | `int2hexbyte` as written gives `00` whatever its argument |
| Address.ParseHexFieldsAppend | id2ip.py:34-35 | reading the hex fields of a concatenation reads each part |
| Address.MacSplit | id2ip.py:38-42 | splitting a MAC made of the fixed prefix and three colon-free fields gives the six fields |
| Address.ListToIdLastThree | id2ip.py:17-18 | `lst2id` reads only the last three components |
| Address.MacParse | id2ip.py:38-42 | `mac2id` of a MAC with three byte fields is `lst2id` of their values |
| Address.MacAsWrittenConstant | id2ip.py:38-39 | `id2mac` as written gives `6f:3d:01:00:00:00` for every id |
| Address.MacRoundTripBroken | id2ip.py:30-42 | every id gives the same MAC, which reads back as −1: `mac2id(id2mac(s)) != s` |
| Address.HexByteValue | id2ip.py:30-35 | the corrected `int2hexbyte(n)` of a byte is two hex digits with value n |
| Address.HexFieldsParse | id2ip.py:34-42 | the corrected byte fields of byte components read back as those components |
| Address.MacRoundTrip | id2ip.py:38-42 | with the corrected `int2hexbyte`, `mac2id(id2mac(s)) == s` while the first component fits a byte |
| Counter.CounterIterator.Iter | counteriter.py:8-9 | `iter(c)` is `c` itself |
| Counter.CounterIterator.Next | counteriter.py:11-13 | `next(c)` adds one to the count and returns the new count |
| Counter.ResetIters | topocreatebcube.py:16-20 | two fresh, distinct counters at zero replace the module's counters |
| Counter.Independent | counteriter.py:4-13 | drawing twice from one counter gives consecutive numbers and leaves another counter unchanged |
| Dict.Set | latencycontroller.py:661-669 | `d[k] = v` maps k to v; a new key goes to the end of the key order and an existing key keeps its place |
| Dict.RemoveCloses | latencycontroller.py:632 | deleting a key that occurs once leaves the keys before it and after it, in order |
| Dict.Remove | latencycontroller.py:625-632 | `del d[k]` drops exactly k from the keys and closes its place in the key order, the other keys keeping their relative order; an absent key changes nothing |
| Dict.GetOr | latencycontroller.py:665 | `d.get(k, e)` is `d[k]` when k is present and e otherwise |
| Dict.Values | latencycontroller.py:506 | `d.values()` lists each key's value in key order |
| Dict.Items | latencycontroller.py:476 | `d.items()` lists each key with its value in key order |
| Dict.FromItems | latencycontroller.py:88 | every key of `dict(items)` comes from some pair, and every pair's key is present |
| Dict.FromItemsLastWins | latencycontroller.py:88 | a key's value in `dict(items)` is that of its last pair |
| Dict.FromItemsOfItems | latencycontroller.py:88 | `dict(d.items())` is `d` again, with keys in the same order |
| Dict.FromItemsOfDistinct | latencycontroller.py:88 | `dict(items)` of pairs with distinct keys keeps the keys in order |
| Topology.HostNamesMember | topocreatebcube.py:32 | a host name is among the next n drawn exactly when its number is |
| Topology.HostNamesDistinct | topocreatebcube.py:32 | the names a counter hands out are distinct |
| Topology.NextHost | topocreategrid.py:24-25 | draws one number from the host counter and names the host after it |
| Topology.NextSwitch | topocreategrid.py:27-28 | draws one number from the switch counter and names the switch after it |
| Topology.NextHosts | topocreatebcube.py:32 | `[f"h{next(hosts_iter)}" for _ in range(n)]` gives the next n host names and advances the counter by n |
| Topology.NextSwitches | topocreatebcube.py:43 | the next n switch names, with the counter advanced by n |
| Topology.AttachHosts | topocreateclos.py:30-52 | hanging n fresh hosts off a switch adds exactly those hosts and one link from the switch to each of them |
| Topology.SewRowsIndex | topocreatebcube.py:23-24 | the cross product of `sew_rows` is laid out row by row: entry `i·|r2|+j` is `(r1[i], r2[j])` |
| Topology.SewRowsMember | topocreatebcube.py:23-24 | a link is in `sew_rows(r1, r2)` exactly when its ends come from r1 and r2 |
| Topology.SewRowsLoop | topocreatebcube.py:23-24 | the nested loops build exactly the cross product |
| Topology.AttachedIndex | topocreateclos.py:30-52 | link `off + j` of the attached hosts joins switch l to host number `h0 + off + j + 1` |
| Topology.AttachAll | topocreateclos.py:30-52 | attaching m hosts to each switch in turn gives the attached links and advances the host counter by `m·|sws|` |
| Topology.ZipLoop | topocreatebcube.py:51 | the loop over `zip(xs, ys)` makes one link per pair, as many as the shorter list |
| Topology.DegreeFan | topocreatebcube.py:35 | a node other than the centre is an end of as many fan links as it occurs among the nodes |
| Topology.DegreeZip | topocreatebcube.py:51 | a node not in xs is an end of as many zipped links as it occurs among the paired ys |
| Topology.DegreeAttached | topocreateclos.py:30-52 | a host is an end of exactly one attached link when its number is among those handed out, and of none otherwise |
| Counter.CounterIterator.constructor | counteriter.py:5-6 | a new counter starts at 0, so its first number is 1 |
| Address.ZeroMacReadsBack | id2ip.py:38-42 | `mac2id('6f:3d:01:00:00:00')` is −1 |
| Clos.CreateTopo | topocreateclos.py:30-51 | the builder returns exactly the eight leaves with two hosts each, then three spines each linked to every leaf; the host counter advances by 16 and the switch counter by 11 |
| Clos.MainTopo | topocreateclos.py:54-57 | `main` builds from counters reset to zero and leaves fresh zeroed counters behind |
| Clos.ClosTotals | topocreateclos.py:36-50 | the topology has 16 hosts, 11 switches and 40 links |
| Clos.ClosSwitchNames | topocreateclos.py:36-47 | the switches are the next eleven switch names in drawing order: leaves first, then spines |
| Clos.ClosLeafLink | topocreateclos.py:36-43 | link `2l + j` joins leaf `l` to its `j`-th host, leaf first |
| Clos.ClosSpineLink | topocreateclos.py:48-50 | link `16 + 8k + l` joins spine `k` to leaf `l`, spine first |
| Clos.ClosSpinesMeetLeaves | topocreateclos.py:44-50 | a switch is linked to a leaf as a spine exactly when it is one of the three spines: every spine meets every leaf and nothing else does |
| Clos5.CreateTopo | topocreateclos5.py:33-56 | the builder returns the fold of its row loop over `k = [4,2,2,2,4]` followed by the hosts of the last row; each counter advances by the number of names it handed out |
| Clos5.AddRow | topocreateclos5.py:38-50 | one pass of the row loop: the first row gets two hosts per switch, every later row is sewn to the row before, and the row becomes the last row |
| Clos5.RowsFoldSnoc | topocreateclos5.py:38-50 | folding one more row is one more step of the row loop |
| Clos5.MainTopo | topocreateclos5.py:59-62 | `main` builds from counters reset to zero and leaves fresh zeroed counters behind |
| Clos5.RowsAfterAll | topocreateclos5.py:38-50 | after the five rows: 8 hosts on the first row, the switch rows in order, and each row sewn to the one before it |
| Clos5.Clos5Shape | topocreateclos5.py:33-56 | the whole topology: hosts 1–16, switches 1–14 row by row, the first row's hosts, the sewn rows and the last row's hosts |
| Clos5.Clos5Totals | topocreateclos5.py:33-56 | 16 hosts, 14 switches and 40 links |
| Clos5.SewnRowMember | topocreateclos5.py:29-30 | `sew_rows(r1, r2)` holds exactly the links from a switch of r1 to a switch of r2 |
| Clos5.Clos5SwitchLinks | topocreateclos5.py:45-48 | two switches are linked as `(sw, lsw)` exactly when `lsw` is in the row just before `sw`'s |
| Clos5.Clos5HostLinks | topocreateclos5.py:39-55 | the first eight links hang two hosts off each first-row switch and the last eight two hosts off each last-row switch, host first |
| Clos5.Clos5Parts | topocreateclos5.py:33-56 | the 40 links are 8 first-row host links, 24 links between rows and 8 last-row host links, in that order |
| Grid.CreateSwitchHost | topocreategrid.py:30-34 | one new host and one new switch, each counter advanced by one, and a single host-first link between them |
| Grid.CreateRow | topocreategrid.py:37-51 | a row of four cells: the next four hosts and switches, each cell's host link, and each switch after the first linked to the one before it |
| Grid.Column | topocreategrid.py:65-67 | the links between two consecutive rows pair the `c`-th switch of the upper row with the `c`-th switch of the lower one |
| Grid.ZipLinks | topocreategrid.py:66-67 | `zip(previous, current)` gives one link per position, as many as the shorter row |
| Grid.CreateTopo | topocreategrid.py:54-73 | the builder returns the four rows and the links joining each row to the row above; each counter advances by 16 |
| Grid.MainTopo | topocreategrid.py:76-79 | `main` builds from counters reset to zero and leaves fresh zeroed counters behind |
| Grid.GridTotals | topocreategrid.py:54-69 | 16 hosts, 16 switches and 40 links |
| Grid.RowHostLinks | topocreategrid.py:30-46 | within a row, a host is linked to a switch exactly when both belong to the same cell |
| Grid.RowSwitchLinks | topocreategrid.py:47-49 | within a row, a switch is linked to another exactly when the other is its left neighbour |
| Grid.ColumnMember | topocreategrid.py:64-67 | between two rows, a switch is linked to another exactly when the other is the one directly below it |
| Grid.GridHostLinks | topocreategrid.py:54-69 | host `hN` is linked to switch `sM` exactly when N = M: each cell pairs its host with its own switch |
| Grid.CellInjective | topocreategrid.py:59-68 | different grid positions are different switches |
| Grid.RowCellLinks | topocreategrid.py:42-49 | among the first `c` cells of a row, a cell is linked to its left neighbour and to nothing else |
| Grid.ColumnCellLinks | topocreategrid.py:64-67 | between rows `r-1` and `r`, a cell is linked to the cell below it and to nothing else |
| Grid.GridCellLinks | topocreategrid.py:54-69 | in the first `r` rows, a cell is linked to another exactly when the other is its left neighbour or the cell below it |
| Grid.GridNeighbours | topocreategrid.py:54-73 | in the whole grid, a cell is linked to another exactly when the other is its left neighbour or the cell below it |
| SimpleTree.CreateTree | topocreatesimpletree.py:23-38 | the recursive builder returns exactly the specification tree for its root and remaining levels, and advances each counter by the number of names it returns |
| SimpleTree.CreateTopo | topocreatesimpletree.py:41-51 | the builder draws the root switch and then grows three levels below it, advancing each counter by what it hands out |
| SimpleTree.CreateRooted | topocreatesimpletree.py:41-51 | the same builder for any number of levels |
| SimpleTree.MainTopo | topocreatesimpletree.py:54-57 | `main` builds from counters reset to zero and leaves fresh zeroed counters behind |
| SimpleTree.ChildNodes | topocreatesimpletree.py:30-33 | the child end of each link, in link order |
| SimpleTree.TreeShape | topocreatesimpletree.py:23-38 | a subtree with L levels left has `2^(L+1)` hosts and `2^(L+1)-2` switches, named in counter order, and every node it creates is the child of exactly one of its links |
| SimpleTree.StepShape | topocreatesimpletree.py:27-37 | one pass of the two-child loop keeps the names in counter order and adds `2^L` hosts and `2^L-1` switches |
| SimpleTree.Graft | topocreatesimpletree.py:32-37 | attaching a new switch and its subtree after earlier children keeps every name in counter order and every created node a child exactly once |
| SimpleTree.RootedShape | topocreatesimpletree.py:41-51 | a rooted tree of L levels has hosts 1..`2^(L+1)`, switches 1..`2^(L+1)-1` with the root first, one link per non-root node, and each non-root node is the child of exactly one link |
| SimpleTree.TreeTotals | topocreatesimpletree.py:41-51 | with three levels: 16 hosts, 15 switches and 30 links, each naming a different non-root node as its child |
| FatTree.PodLinks | topocreatefattree.py:40-47 | a pod has 8 links |
| FatTree.CreateEdgeLayer | topocreatefattree.py:27-34 | two new hosts, each linked from the given inner switch, and no switches |
| FatTree.CreateAggregationLayer | topocreatefattree.py:36-50 | a pod: two outer and two inner switches sewn together, two hosts under each inner switch, switches listed outer then inner |
| FatTree.EdgeLayers | topocreatefattree.py:43-47 | the edge layers of all inner switches hang two fresh hosts off each, in order |
| FatTree.CreateTopo | topocreatefattree.py:53-67 | the builder draws three core switches, then four pods, then sews every pod's outer switches to every core switch, cores listed last |
| FatTree.AddPod | topocreatefattree.py:59-64 | one pass of the pod loop appends the next pod's hosts, switches and links and its two outer switches |
| FatTree.PodStep | topocreatefattree.py:59-64 | one more pod extends the names, the links and the outer switches by that pod's own |
| FatTree.MainTopo | topocreatefattree.py:70-73 | `main` builds from counters reset to zero and leaves fresh zeroed counters behind |
| FatTree.FatTreeTotals | topocreatefattree.py:53-67 | 16 hosts, the 16 pod switches followed by the 3 cores, and 56 links |
| FatTree.PodSlices | topocreatefattree.py:59-64 | pod `p` occupies switches `4p..4p+4`, hosts `4p..4p+4` and links `8p..8p+8` of the topology |
| FatTree.PodLinkEnds | topocreatefattree.py:36-50 | every pod link starts at a switch of that pod and ends at a host or another switch of that pod |
| FatTree.PodCrossLinks | topocreatefattree.py:42 | every outer switch of a pod is linked to every inner switch of that pod |
| FatTree.PodHostLinks | topocreatefattree.py:43-47 | the host links of a pod hang the hosts off the inner switches in order |
| FatTree.OutersMember | topocreatefattree.py:64 | a switch is among the collected `s[:-LEAFS]` exactly when it is one of the first two switches of its pod |
| FatTree.FatTreeCoreLinks | topocreatefattree.py:65 | a switch is linked to a core switch exactly when it is an outer switch of some pod |
| BCube.PodRows | topocreatebcube.py:45-50 | the collected `h[-PODS:]` of pod `i` are its four hosts |
| BCube.CreatePod | topocreatebcube.py:27-36 | a pod: one new switch, the next four hosts, and a link from the switch to each host |
| BCube.SpineLinksLoop | topocreatebcube.py:51 | the nested comprehension links spine `i` to the `i`-th entry of every collected row, row by row |
| BCube.CreateTopo | topocreatebcube.py:39-53 | the builder draws four spines, then four pods, then links the spines to the pods' hosts, spines listed last |
| BCube.MainTopo | topocreatebcube.py:56-59 | `main` builds from counters reset to zero and leaves fresh zeroed counters behind |
| BCube.SpineLinksLength | topocreatebcube.py:51 | four spine links per collected row |
| BCube.BCubeTotals | topocreatebcube.py:39-53 | hosts 1–16, the pod switches followed by the spines, and 32 links |
| BCube.PodLink | topocreatebcube.py:35 | link `4p + j` of the pods joins pod switch `p` to its `j`-th host |
| BCube.SpineLink | topocreatebcube.py:51 | spine link `4p + i` joins spine `i` to entry `i` of row `p` |
| BCube.BCubeLinks | topocreatebcube.py:39-53 | link `4p + i` joins pod `p`'s switch to host `4p + i`, and link `16 + 4p + i` joins spine `i` to that same host |
| BCube.PodsDegree | topocreatebcube.py:45-49 | every host the pods hand out is an end of exactly one pod link, and no other host is |
| BCube.SpinesDegree | topocreatebcube.py:51 | every pod host is an end of exactly one spine link |
| BCube.HostDegree | topocreatebcube.py:39-53 | every host of the topology has exactly two links: one to its pod switch, one to a spine |
| BCubeSwitched.Leaves | topocreatebcubeswitched.py:44 | a pod's leaves are four switch names |
| BCubeSwitched.LeafRows | topocreatebcubeswitched.py:62-67 | the collected `s[-PODS:]` of pod `i` are its four leaves |
| BCubeSwitched.PodsSnoc | topocreatebcubeswitched.py:62-67 | one more pod appends its links and its leaf row |
| BCubeSwitched.CreateEdgeLayer | topocreatebcubeswitched.py:28-36 | one new host linked from the given leaf, and no switches |
| BCubeSwitched.EdgeLayers | topocreatebcubeswitched.py:45-49 | each leaf in turn gets one fresh host |
| BCubeSwitched.CreatePod | topocreatebcubeswitched.py:39-53 | a pod: a pod switch and four leaf switches, one host under each leaf, the pod switch linked to every leaf; switches listed pod switch first and leaves last |
| BCubeSwitched.CreateTopo | topocreatebcubeswitched.py:56-70 | the builder draws four spines, then four pods, then links spine `i` to leaf `i` of every pod, spines listed last |
| BCubeSwitched.AddPod | topocreatebcubeswitched.py:62-67 | one pass of the pod loop appends the next pod's hosts, switches, links and leaf row |
| BCubeSwitched.MainTopo | topocreatebcubeswitched.py:73-76 | `main` builds from counters reset to zero and leaves fresh zeroed counters behind |
| BCubeSwitched.PodLinksLength | topocreatebcubeswitched.py:39-53 | a pod has 8 links |
| BCubeSwitched.PodsLinksLength | topocreatebcubeswitched.py:62-66 | n pods have 8n links |
| BCubeSwitched.BCubeSwitchedTotals | topocreatebcubeswitched.py:56-70 | hosts 1–16, the 20 pod switches followed by the 4 spines, and 48 links |
| BCubeSwitched.SpineToLeaf | topocreatebcubeswitched.py:68 | link `32 + 4p + i` joins spine `i` to leaf `i` of pod `p` |
| BCubeSwitched.PodDegree | topocreatebcubeswitched.py:39-53 | every host of a pod is an end of exactly one of its links |
| BCubeSwitched.PodsDegree | topocreatebcubeswitched.py:62-66 | every host the pods hand out is an end of exactly one pod link |
| BCubeSwitched.SpinesDegree | topocreatebcubeswitched.py:68 | no host is an end of a spine link |
| BCubeSwitched.HostDegree | topocreatebcubeswitched.py:56-70 | every host of the topology has exactly one link |
| DCell.RShiftIndex | topocreatedcell.py:25-27 | `circular_rshift(sbs, i)` keeps the length and puts `sbs[(i + m) % len]` at position m |
| DCell.RShiftPermutes | topocreatedcell.py:25-27 | the shift raises ZeroDivisionError exactly on an empty list and otherwise rearranges the elements |
| DCell.RShiftFullTurn | topocreatedcell.py:25-27 | shifting by a multiple of the length gives the list back |
| DCell.Unprocessed | topocreatedcell.py:30-31 | `filter_not(processed.__contains__, cell)` keeps exactly the members not yet processed, and is empty exactly when every member is processed |
| DCell.UnprocessedSuffix | topocreatedcell.py:64-65 | when exactly the first p members of a cell are processed, the unprocessed ones are the rest of the cell |
| DCell.CellPairs | topocreatedcell.py:62-75 | the first k links made for cell i join its member `i + m` with member i of cell `i + 1 + m` |
| DCell.GuardIff | topocreatedcell.py:64 | during the pairing of cell i the while loop runs on exactly while fewer than `HPC - i` partners have been taken |
| DCell.PickedNodes | topocreatedcell.py:65-71 | `h1` is the next unpaired member of cell i and `h2` member i of the first cell not yet taken |
| DCell.MarkedStep | topocreatedcell.py:72-74 | after a link, the two linked members are processed and nothing else changes |
| DCell.NextCell | topocreatedcell.py:66-70 | the inner `for` stops at the first cell after i not yet taken |
| DCell.CellPairsSnoc | topocreatedcell.py:72 | one more pass of the while loop appends one link |
| DCell.GridEq | topocreatedcell.py:55-60 | the collected hosts of different cells or positions are different nodes |
| DCell.PairingStep | topocreatedcell.py:72-74 | appending the link, the two hosts and the taken cell keeps the pairing invariant |
| DCell.FirstFree | topocreatedcell.py:66-70 | the cell found is `i + 1 + len(cells_taken_by_this_cell)` |
| DCell.Picked | topocreatedcell.py:64-71 | while cell i has an unprocessed member, its first is member `i + k` and cell `i + 1 + k` still has its member i free |
| DCell.PairOnce | topocreatedcell.py:65-75 | one pass of the while loop keeps the pairing invariant and takes one more cell |
| DCell.PairCell | topocreatedcell.py:62-75 | the pairing of cell i appends the links from it to every later cell and leaves all of its members processed |
| DCell.CrossLinks | topocreatedcell.py:61-75 | the whole pairing appends exactly one link between every two cells, member `j - 1` of cell i to member i of cell j |
| DCell.CrossLength | topocreatedcell.py:61-75 | the pairing makes 10 links, one per pair of the five cells |
| DCell.CrossPair | topocreatedcell.py:61-75 | cells i < j are joined by the link from member `j - 1` of cell i to member i of cell j |
| DCell.DoneDegree | topocreatedcell.py:61-75 | during the pairing, a member has been linked once if it is already used and not at all otherwise |
| DCell.CrossDegree | topocreatedcell.py:61-75 | after the pairing every member of every cell is an end of exactly one pairing link |
| DCell.CellLinks | topocreatedcell.py:46 | a cell has four switch links |
| DCell.HostRows | topocreatedcell.py:60 | the collected `h[-HPC:]` of cell c are its four hosts |
| DCell.HostRowsGrid | topocreatedcell.py:55-60 | the collected host rows are five rows of four distinct hosts |
| DCell.CreateCell | topocreatedcell.py:38-47 | a cell: one new switch, the next four hosts and a link from the switch to each |
| DCell.CreateTopo | topocreatedcell.py:50-76 | the builder draws five cells and then appends the pairing links between their hosts |
| DCell.MainTopo | topocreatedcell.py:79-82 | `main` builds from counters reset to zero and leaves fresh zeroed counters behind |
| DCell.DCellTotals | topocreatedcell.py:50-76 | hosts 1–20, switches 1–5 and 30 links |
| DCell.CellsLinked | topocreatedcell.py:61-75 | for cells i < j, host `4i + j` is linked to host `4j + i + 1` |
| DCell.CellsDegree | topocreatedcell.py:55-59 | every host handed out is an end of exactly one cell link |
| DCell.HostDegree | topocreatedcell.py:50-76 | every host has exactly two links: one to its cell switch, one to another cell |
| DCellSwitched.Leaves | topocreatedcellswitched.py:55 | a cell's leaves are four switch names |
| DCellSwitched.LeafRows | topocreatedcellswitched.py:77 | the collected `s[-HPC:]` of cell c are its four leaves |
| DCellSwitched.LeafRowsGrid | topocreatedcellswitched.py:72-77 | the collected leaf rows are five rows of four distinct switches |
| DCellSwitched.CreateCell | topocreatedcellswitched.py:50-64 | a cell: a cell switch and four leaves, one host under each leaf, the cell switch linked to every leaf; switches listed cell switch first |
| DCellSwitched.AddCell | topocreatedcellswitched.py:72-77 | one pass of the cell loop appends the next cell's hosts, switches, links and leaf row |
| DCellSwitched.CreateTopo | topocreatedcellswitched.py:67-93 | the builder draws five cells and then appends the pairing links between their leaves |
| DCellSwitched.MainTopo | topocreatedcellswitched.py:96-99 | `main` builds from counters reset to zero and leaves fresh zeroed counters behind |
| DCellSwitched.CellsLinksLength | topocreatedcellswitched.py:72-76 | n cells have 8n links |
| DCellSwitched.DCellSwitchedTotals | topocreatedcellswitched.py:67-93 | hosts 1–20, switches 1–25 and 50 links |
| DCellSwitched.CellsLinked | topocreatedcellswitched.py:78-92 | for cells i < j, leaf `j - 1` of cell i is linked to leaf i of cell j |
| DCellSwitched.LeafCrossDegree | topocreatedcellswitched.py:78-92 | every leaf is an end of exactly one pairing link |
| DCellSwitched.CellDegree | topocreatedcellswitched.py:50-64 | every host of a cell is an end of exactly one of its links |
| DCellSwitched.CellsDegree | topocreatedcellswitched.py:72-76 | every host handed out is an end of exactly one cell link |
| DCellSwitched.CrossMissesHosts | topocreatedcellswitched.py:78-92 | no host is an end of a pairing link |
| DCellSwitched.CrossLeafEnds | topocreatedcellswitched.py:78-92 | pairing links over switch rows join two switches |
| DCellSwitched.HostDegree | topocreatedcellswitched.py:67-93 | every host has exactly one link |
| Big.SpineSpine | topocreatebig.py:129-134 | the spine-to-spine links of group g: none for the first group, four for every later one, each between two switches |
| Big.CreateVirtualServer | topocreatebig.py:41-46 | one new host and nothing else |
| Big.CreatePhysicalServer | topocreatebig.py:49-64 | a server: its virtual hosts, each linked to the server switch, then the server host and its own link; the host counter advances by `1 + vps` and the switch counter by one |
| Big.CreateRackTower | topocreatebig.py:67-80 | a tower: its server followed by the tower switch, and the server switch linked up to the tower switch |
| Big.CreateCorridor | topocreatebig.py:83-99 | a corridor: two towers, each linked up to both corridor switches, which come last in the switch list |
| Big.CreateSpine | topocreatebig.py:102-116 | a group: three corridors, corridor i linked up to spines i and i+1, the four spines listed last |
| Big.LinkSpines | topocreatebig.py:131-133 | spine i of the previous group is linked to spine i of the new group |
| Big.AddGroup | topocreatebig.py:124-134 | one pass of the datacenter loop appends the next group and, from the second group on, the links chaining its spines to the previous group's |
| Big.CreateDatacenter | topocreatebig.py:119-135 | the builder stacks three groups with their spines chained; the host counter advances by 18 and the switch counter by 66 |
| Big.MainTopo | topocreatebig.py:138-141 | `main` builds from counters reset to zero and leaves fresh zeroed counters behind |
| Big.StackSnoc | topocreatebig.py:124-134 | stacking one more part extends the topology by that part and its extra links |
| Big.StackHosts | topocreatebig.py:124-128 | parts whose hosts follow one another stack into consecutively numbered hosts |
| Big.StackSizes | topocreatebig.py:124-134 | stacked parts hold all their switches and links plus the loop's own links |
| Big.StackMember | topocreatebig.py:124-134 | every link of a part, or added by the loop after it, is in the stacked topology |
| Big.StackDegree | topocreatebig.py:124-134 | when each part links each of its own hosts once and the loop adds only switch links, every stacked host has exactly one link |
| Big.ServerAlone | topocreatebig.py:49-64 | without virtual servers a server is one host, one switch and the link between them |
| Big.ServerLinks | topocreatebig.py:55-63 | the virtual hosts come first, each linked to the server switch, then the server host and its link |
| Big.ServerDegree | topocreatebig.py:49-64 | the server host has exactly one link and no other host has any |
| Big.TowerShape | topocreatebig.py:67-80 | a tower has one host, two switches and two links |
| Big.TowerUplink | topocreatebig.py:77-78 | the server switch is linked to the tower switch |
| Big.TowerDegree | topocreatebig.py:67-80 | the tower's host has exactly one link |
| Big.CorridorShape | topocreatebig.py:83-99 | a corridor has two hosts, six switches and eight links |
| Big.CorridorUplinks | topocreatebig.py:94-96 | every tower switch is linked to both corridor switches |
| Big.CorridorDegree | topocreatebig.py:83-99 | each of the corridor's hosts has exactly one link |
| Big.GroupShape | topocreatebig.py:102-116 | a group has six hosts, 22 switches and 30 links |
| Big.GroupUplinks | topocreatebig.py:112-114 | the two switches of corridor c are linked to spines c and c+1 |
| Big.GroupDegree | topocreatebig.py:102-116 | each of the group's hosts has exactly one link |
| Big.DatacenterHosts | topocreatebig.py:119-135 | the datacenter's hosts are `h1`.. `h18`, as many as corridors × (spines − 1) × towers × servers × (1 + virtual servers) |
| Big.DatacenterSwitches | topocreatebig.py:119-135 | 66 switches |
| Big.DatacenterLinks | topocreatebig.py:119-135 | 90 links inside the groups and 8 between their spines |
| Big.SpinesChained | topocreatebig.py:129-134 | spine i of every group after the first is linked to spine i of the group before |
| Big.CorridorSpines | topocreatebig.py:112-114 | in every group, each corridor is linked up to its two spines |
| Big.HostDegree | topocreatebig.py:119-135 | every datacenter host has exactly one link |
| Render.SortByNum | toporender.py:42 | `sorted(…, key=lambda a: int(a[1:]))`: the same nodes, as many, in ascending order of their number |
| Render.InsertSorted | toporender.py:42 | placing one node into an ascending list keeps it ascending |
| Render.InsertMultiset | toporender.py:42 | placing one node adds exactly that node |
| Render.AppendLine | toporender.py:14-114 | `s += line + eol` extends the text of the lines so far by one more terminated line |
| Render.TerminatedConcat | toporender.py:14-114 | the text of two runs of lines is the text of the first followed by that of the second |
| Render.RenderSwitchDecls | toporender.py:42-43 | the loop writes one `addSwitch` line per switch, in the order given |
| Render.RenderHostDecls | toporender.py:47-49 | the loop writes one `addHost` line per host, with the address `id2ip(n-1)` of host `hn` |
| Render.RenderLinkDecls | toporender.py:53-55 | the loop writes one `addLink` line per link in input order, both ports set to its 1-based position and `bw` to its speed |
| Render.RenderStartLines | toporender.py:95-96 | the loop writes one `net.get(…).start([c0])` line per switch |
| Render.RenderTopology | toporender.py:11-115 | the script is exactly the fixed lines with the four sorted blocks between them, every line ended by `eol` |
| Render.TextOfBlocks | toporender.py:11-115 | the script text splits into the text of each fixed part and each block, in order |
| Render.StartLineName | toporender.py:96 | a start line holds exactly the switch's name between its fixed head and tail |
| Render.StartLineInjective | toporender.py:96 | two switches get the same start line only when they are the same switch |
| Render.StartLinesCount | toporender.py:95-96 | a switch's start line appears as often as the switch appears in the list |
| Render.StartBlockNamesSwitches | toporender.py:95-96 | the sorted start block has one line per switch and starts every switch as often as it is listed |
| Render.HostLineAddress | toporender.py:48 | the address written for host `hn` reads back as `n-1` |
| Render.HostAddressesDistinct | toporender.py:48 | hosts with different numbers get different addresses |
| Graph.SetEdge | graphtools.py:108-109 | `graph[a][b] = bw` adds no node |
| Graph.AddLink | graphtools.py:107-109 | storing one link in both directions adds no node |
| Graph.AddLinkWf | graphtools.py:107-109 | storing a link keeps every dict well formed |
| Graph.SetEdgeEdges | graphtools.py:108 | after `graph[a][b] = bw` the edges are the old ones and `a→b`, which holds `bw`; other edges keep their capacity |
| Graph.GraphFromTopo | graphtools.py:101-110 | the three loops compute the adjacency dict of the topology, or `KeyError` |
| Graph.InitNodesShape | graphtools.py:103-106 | the node loops add every listed node with an empty neighbour dict and leave other nodes alone |
| Graph.AddLinkSymmetric | graphtools.py:107-109 | storing a link in both directions keeps the graph symmetric |
| Graph.AddLinkEdges | graphtools.py:107-109 | a link adds exactly its two directions and leaves other capacities unchanged |
| Graph.AddLinkCapacity | graphtools.py:107-109 | the link's own edge holds its speed |
| Graph.AddLinksOk | graphtools.py:107-109 | the link loop raises `KeyError` exactly when some link names an undeclared node, and adds no node |
| Graph.AddLinksWf | graphtools.py:107-109 | the link loop keeps every dict well formed |
| Graph.AddLinksSymmetric | graphtools.py:107-109 | the link loop keeps the graph symmetric |
| Graph.AddLinksEdges | graphtools.py:107-109 | every link becomes an edge and every new edge comes from a link |
| Graph.EdgeKept | graphtools.py:107-109 | the link loop removes no edge |
| Graph.AddLinksCapacity | graphtools.py:107-109 | a link no later link overwrites keeps its speed |
| Graph.LastWriteKept | graphtools.py:107-109 | an edge no link touches keeps its capacity |
| Graph.BaseGraphShape | graphtools.py:102-106 | before the link loop the graph has exactly the declared nodes and no edges |
| Graph.GraphOfNodes | graphtools.py:101-110 | the graph exists exactly when every link joins declared nodes; its nodes are the hosts and switches and it is symmetric |
| Graph.GraphOfOk | graphtools.py:101-110 | `graph_from_topo` raises exactly when a link names an undeclared node |
| Graph.EndsDeclaredIff | graphtools.py:107-109 | on a graph of the declared nodes, every link end being a key means every link end is declared |
| Graph.GraphOfLinks | graphtools.py:101-110 | every link is an edge both ways, the last mention of a pair sets its capacity both ways, and every edge comes from a link |
| Graph.GraphOfEdges | graphtools.py:101-110 | the edges are exactly the two directions of the links |
| Graph.GraphOfCapacity | graphtools.py:107-109 | the last link between two nodes sets the capacity in both directions |
| Graph.TransitionsMember | graphtools.py:8-9 | the transitions are exactly the pairs (node, neighbour) |
| Graph.TransitionsDistinct | graphtools.py:8-9 | no transition is listed twice |
| Graph.TransMapMember | graphtools.py:10-15 | a target has an entry exactly when some transition reaches it, which lists exactly the sources that do, each once |
| Graph.TransMapKeys | graphtools.py:11-13 | a target has an entry exactly when some transition reaches it |
| Graph.TransMapSources | graphtools.py:11-14 | a target's entry lists exactly the sources of its transitions |
| Graph.TransMapDistinct | graphtools.py:11-14 | with distinct transitions no entry lists a source twice |
| Graph.TransitionMap | graphtools.py:7-15 | the loop computes the reverse transition map of the graph |
| Graph.TransitionMapMeaning | graphtools.py:7-15 | `tm[t]` exists exactly when some node links to `t` and lists exactly those nodes, each once |
| Graph.PathsSound | graphtools.py:18-28 | every path yielded extends the accumulator, ends at the target, repeats no node when the accumulator does not and follows the map |
| Graph.DistinctSnoc | graphtools.py:26 | adding a node not already on the path keeps it simple |
| Graph.FollowsSnoc | graphtools.py:25-27 | stepping to an entry of the current node's list keeps the path following the map |
| Graph.ExploreSound | graphtools.py:25-27 | every path the candidate loop yields goes through one of the candidates not yet on the path and ends at the target |
| Graph.PathsComplete | graphtools.py:18-28 | every simple extension of the accumulator that follows the map to the target is yielded |
| Graph.ExploreComplete | graphtools.py:25-27 | every such extension through a remaining candidate is yielded by the loop |
| Graph.PathsDistinct | graphtools.py:18-28 | no path is yielded twice |
| Graph.ExploreDistinct | graphtools.py:25-27 | distinct candidates yield distinct paths |
| Graph.PathsNoError | graphtools.py:25 | on a closed map no `KeyError` is raised |
| Graph.ExploreNoError | graphtools.py:25-27 | on a closed map the candidate loop raises nothing |
| Graph.FindAllPathsSame | graphtools.py:32-33 | from a node to itself only the empty path is yielded |
| Graph.FindAllPathsExact | graphtools.py:31-36 | on a symmetric graph the paths yielded are exactly the simple paths from `a` to `b`, each once, and no exception is raised |
| Graph.SymmetricTransitions | graphtools.py:7-15 | on a symmetric graph the transition map is closed, lists no node twice, and steps along reversed edges |
| Graph.MinExists | graphtools.py:47-53 | a non-empty set of reached nodes has one of least distance |
| Graph.WalkBound | graphtools.py:46-65 | once all nodes are settled, every walk from the source ends at a reached node no farther than the walk's length |
| Graph.OfferTaken | graphtools.py:62-65 | a shorter distance to a neighbour is recorded with `min_node` as its predecessor |
| Graph.OfferDeclined | graphtools.py:63 | a neighbour already as close is left alone |
| Graph.OfferStart | graphtools.py:58-61 | removing the closest pending node starts the neighbour loop from a consistent state |
| Graph.Offer | graphtools.py:61-65 | one turn of the neighbour loop: afterwards the neighbour is reached and at most one hop farther than `min_node` |
| Graph.Relax | graphtools.py:58-65 | settling the closest pending node keeps the search invariant: distances are walk lengths with a predecessor one hop closer, and settled nodes have all their neighbours reached |
| Graph.RelaxDone | graphtools.py:58-65 | after the neighbour loop the search invariant holds with `min_node` settled |
| Graph.RelaxSettled | graphtools.py:61-65 | after the neighbour loop every neighbour of the settled nodes is reached |
| Graph.ExtendWalk | graphtools.py:61-65 | a walk extended by an edge is a walk |
| Graph.Dijkstra | graphtools.py:39-66 | `visited` holds exactly the nodes reachable from `initial`, each with its least hop count, and `path` maps each other reached node to a neighbour one hop closer |
| Graph.DijkstraDone | graphtools.py:55-56 | when no pending node is reached the search is complete |
| Graph.ChainWalk | graphtools.py:39-66 | following predecessors from a reached node gives a walk from the source as long as its distance |
| Graph.DijkstraMinPath | graphtools.py:69-78 | an unreached target gives `([], None)`; a reached one gives its distance and the predecessor chain from the source, one node longer than the distance |
| Graph.MinPathShortest | graphtools.py:69-78 | the reconstructed path is a walk and no walk from the source to the target is shorter |
| Graph.UnreachedHasNoWalk | graphtools.py:69-78 | no walk reaches a target `dijkstra` did not reach |
| Graph.DijkstraResults.Call | graphtools.py:92-98 | `results(target)` answers as `dijkstra_min_path` on the stored run |
| Graph.DijkstraMemo.constructor | graphtools.py:82-84 | a new memo holds the graph and an empty cache |
| Graph.DijkstraMemo.Call | graphtools.py:86-89 | the result is a `dijkstra` run from `initial`; a cached run is returned unchanged and otherwise the new run is cached |
| Routes.StrLtTotal | latencycontroller.py:126-129 | Python's string order is total on distinct names |
| Routes.PathLtTotal | latencycontroller.py:126-129 | distinct paths of equal length compare one way or the other |
| Routes.KeyLeTotal | latencycontroller.py:126-129 | any two paths compare by `(len(a), a)` one way or the other |
| Routes.Insert | latencycontroller.py:126-129 | placing a path adds exactly that path, at the front or behind the old first path |
| Routes.InsertAscending | latencycontroller.py:126-129 | placing a path into an ascending list keeps it ascending |
| Routes.SortPaths | latencycontroller.py:126-129 | the sorted candidates are a permutation of the candidates |
| Routes.SortPathsSpec | latencycontroller.py:126-129 | `sorted(candidates, key=lambda a: (len(a), a))`: a permutation, shortest first, ties in string order |
| Builtins.Reversed | latencycontroller.py:133 | `reversed(xs)` is the list read backwards: position i holds the item at `len(xs)-1-i` (also `reversed(r)` at topoautotest.py:49) |
| Routes.ConsiderOne | latencycontroller.py:130-141 | one turn of the filter loop: `IndexError` on an empty path, otherwise the state one candidate leads to |
| Routes.ConsiderAllSnoc | latencycontroller.py:126-141 | considering one more candidate is one more loop turn |
| Routes.FilterPaths | latencycontroller.py:124-142 | the filter returns the paths the loop accepts over the sorted candidates, or `IndexError` |
| Routes.ConsiderAllErr | latencycontroller.py:126-141 | once a candidate raises, the later ones do not matter |
| Routes.FilterError | latencycontroller.py:124-142 | the filter raises `IndexError` exactly when no switch is required and an empty path is a candidate |
| Routes.ConsiderError | latencycontroller.py:130-133 | one turn raises exactly when an earlier turn did or the candidate is empty and not skipped |
| Routes.ReverseReverse | latencycontroller.py:133 | reversing twice gives the path back |
| Routes.OrientSpec | latencycontroller.py:132-133 | the oriented path is the path or its reverse, and runs from `h2` to `h1` only when `h1 == h2` |
| Routes.ReverseMembers | latencycontroller.py:133 | reversing keeps the same nodes |
| Routes.AppendNoReversal | latencycontroller.py:138-139 | accepting a path with no hop in `valid_paths_bits_rev` keeps the accepted paths free of opposite runs |
| Routes.AppendBitsRev | latencycontroller.py:140-141 | after accepting a path, `valid_paths_bits_rev` is exactly the reversed hops of all accepted paths |
| Routes.ConsiderKeeps | latencycontroller.py:130-141 | one loop turn keeps the filter invariant |
| Routes.AcceptedGrow | latencycontroller.py:126-141 | an accepted path stays accepted as more candidates are seen |
| Routes.AcceptedNew | latencycontroller.py:130-133 | a non-empty candidate through `sw`, once oriented, is an acceptable path |
| Routes.AcceptedAppend | latencycontroller.py:139 | appending an acceptable path keeps all accepted paths acceptable |
| Routes.FilterSound | latencycontroller.py:124-142 | every returned path is a non-empty candidate or its reverse, passes through `sw`, is oriented from `h1`, and no two returned paths run a link in opposite directions |
| Routes.ConsiderAccepts | latencycontroller.py:138-141 | a candidate none of whose hops is in `valid_paths_bits_rev` is appended oriented, with its reversed hops added |
| Routes.Unwrap | latencycontroller.py:93-101 | the filled matrix with every cell unwrapped, same shape |
| Routes.AlternativePaths | latencycontroller.py:93-101 | the matrix is `len(hosts)` square and symmetric, cell `[a][b]` holding `find_all_paths` between the two hosts; it raises exactly when some pair's enumeration raises |
| Routes.FillSkip | latencycontroller.py:97 | a cell filled from its twin is skipped and the loop invariant moves on |
| Routes.FillSet | latencycontroller.py:97-100 | filling a cell and its twin moves the loop invariant on |
| Routes.FillRow | latencycontroller.py:96-100 | one turn of the outer loop fills row `i`, or raises only when some pair's enumeration raises |
| Weighted.MakeWpa | latencycontroller.py:1374-1376 | the constructor raises `IndexError` exactly on an empty dict and otherwise keeps it |
| Weighted.Single | latencycontroller.py:1374-1376 | the aggregate of one path has that path with weight 1 |
| Weighted.Subscript | latencycontroller.py:1387-1388 | `wpa[i]` indexes the first path, failing exactly outside Python's index range |
| Weighted.SingleSubscript | latencycontroller.py:1387-1388 | `wpa[0]` and `wpa[-1]` of a one-path aggregate are the path's ends |
| Weighted.PathOffers | latencycontroller.py:1395-1399 | a path of `n` nodes yields its `n-1` hops in order, each with the path's weight |
| Weighted.MaxMergeSnoc | latencycontroller.py:1399-1404 | the first pass over one more hop is one more step |
| Weighted.MaxMergeKeys | latencycontroller.py:1400-1402 | the first pass has an entry for exactly the switches some hop leaves |
| Weighted.MaxMergeRuns | latencycontroller.py:1399-1404 | a switch's entry lists exactly the next hops some hop runs to |
| Weighted.RunsLeaves | latencycontroller.py:1399-1404 | a hop from `s` means a hop leaves `s` |
| Weighted.MaxMergeBound | latencycontroller.py:1403-1404 | the weight kept for a hop is at least every weight offered for it |
| Weighted.MaxMergeAttained | latencycontroller.py:1403-1404 | the weight kept for a hop is one offered for it |
| Weighted.MaxMergeSpec | latencycontroller.py:1392-1404 | the first pass keeps, for each switch and next hop, the largest weight of a path taking that hop |
| Weighted.MaxMergeWf | latencycontroller.py:1392-1404 | the first pass builds well-formed, non-empty dicts |
| Weighted.TakeWf | latencycontroller.py:1400-1404 | one step keeps the table well formed |
| Weighted.LeavesSnoc | latencycontroller.py:1399-1404 | some hop leaves `s` after one more hop when one did before or the new one does |
| Weighted.RunsSnoc | latencycontroller.py:1399-1404 | some hop runs `s→d` after one more hop when one did before or the new one does |
| Weighted.PathOffersMeaning | latencycontroller.py:1395-1398 | the offers of a path are exactly its hops with its weight |
| Weighted.OffersFrom | latencycontroller.py:1392-1399 | each offer comes from some hop of some oriented path |
| Weighted.OffersCover | latencycontroller.py:1392-1399 | each hop of each oriented path is offered |
| Weighted.Normalize | latencycontroller.py:1406-1416 | the reweighted dict of one switch keeps its next hops in order |
| Weighted.NormalizeSum | latencycontroller.py:1406-1416 | the reweighted shares of one switch sum to 1 |
| Weighted.EvenSum | latencycontroller.py:1411-1413 | `n` shares of `1/n` sum to 1 |
| Weighted.ScaledSum | latencycontroller.py:1414-1416 | weights divided by their positive sum sum to 1 |
| Weighted.SumConst | latencycontroller.py:1411-1413 | `n` equal values sum to `n` times the value |
| Weighted.SumScale | latencycontroller.py:1414-1416 | dividing every value by `s` divides the sum by `s` |
| Weighted.Reweight | latencycontroller.py:1405-1417 | the second pass keeps the switches in order and the tables well formed |
| Weighted.OffersStep | latencycontroller.py:1392-1399 | one more path adds its hops after the earlier ones |
| Weighted.TransitionsShares | latencycontroller.py:1390-1417 | for each switch the next hops are exactly those some oriented path takes from it, and their shares sum to 1 |
| Weighted.RunsMeaning | latencycontroller.py:1392-1399 | a hop `s→d` is offered exactly when some oriented path takes it |
| Weighted.Transitions | latencycontroller.py:1390-1417 | `transitions(in_src)` raises `IndexError` exactly when a path is empty, and otherwise returns the two-pass table |
| Weighted.NonEmptyStep | latencycontroller.py:1392-1394 | one more non-empty path keeps all seen paths non-empty |
| Weighted.FirstPass | latencycontroller.py:1391-1404 | the first loop raises exactly on an empty path and otherwise computes the max-weight table |
| Weighted.TakePath | latencycontroller.py:1399-1404 | the hop loop over one path adds that path's offers |
| Weighted.TakeHop | latencycontroller.py:1400-1404 | one hop: a switch gets an entry and the hop keeps the larger weight |
| Weighted.ReweightUpToStep | latencycontroller.py:1406-1416 | one more switch reweighted |
| Weighted.ReweightUpToAll | latencycontroller.py:1406-1416 | reweighting every switch is the second pass |
| Weighted.ReweightLoop | latencycontroller.py:1405-1417 | the second loop computes the second pass |
| Weighted.NormalizeUpToStep | latencycontroller.py:1411-1416 | one more next hop gets its share |
| Weighted.NormalizeUpToAll | latencycontroller.py:1411-1416 | giving every next hop its share is the reweighting |
| Weighted.NormalizeLoop | latencycontroller.py:1409-1416 | the inner loop computes the reweighted dict |
| PyJson.Values | latencycontroller.py:85-88 | the converted items, one per item, in order |
| PyJson.TupleOf | latencycontroller.py:85-86 | a tuple of converted items fails with `ValueError` exactly when some item fails |
| PyJson.DictOf | latencycontroller.py:87-88 | a converted dict fails with `ValueError` exactly when some key or value fails |
| PyJson.Zip | latencycontroller.py:87-88 | the converted keys paired with the converted values, in order |
| PyJson.OkIffJson | latencycontroller.py:82-90 | `jsonload_list2tuple` succeeds exactly on values built from None, int, float, str, lists, tuples and dicts, and otherwise raises `ValueError` |
| PyJson.DictEntriesFrom | latencycontroller.py:87-88 | every entry of a dict built from pairs is one of the pairs |
| PyJson.ResultTupled | latencycontroller.py:82-90 | the result of a JSON value holds no list and is itself a JSON value |
| PyJson.ScalarsKept | latencycontroller.py:83-84 | None, ints, floats and strings come back unchanged |
| PyJson.ListItemsConverted | latencycontroller.py:85-86 | a list becomes a tuple of the same length whose items are the converted items, as a tuple would |
| PyJson.Idempotent | latencycontroller.py:82-90 | converting a converted value changes nothing |
| PyJson.IdempotentItems | latencycontroller.py:85-86 | idempotence for lists and tuples |
| PyJson.IdempotentDict | latencycontroller.py:87-88 | idempotence for dicts |
| PyJson.FixedEntries | latencycontroller.py:87-88 | a dict whose keys and values are each left unchanged is itself left unchanged |
| Stores.Update | latencycontroller.py:1208-1209 | `store[(a, b)] = v` keeps every key canonical and the default unchanged |
| Stores.LookupDefault | latencycontroller.py:1188-1194 | `store[(a, b)]` is the stored value of the sorted pair, or the default when it has none |
| Stores.LookupSymmetric | latencycontroller.py:1188-1194 | `store[(a, b)]` and `store[(b, a)]` read the same, as do the two `contains` calls |
| Stores.UpdateThenLookup | latencycontroller.py:1188-1209 | after `store[(a, b)] = v` both `store[(a, b)]` and `store[(b, a)]` read `v` |
| Stores.UpdateOther | latencycontroller.py:1188-1209 | writing one link leaves every other link's value and presence alone |
| Stores.UpdateAll | latencycontroller.py:1182-1186 | writing the initial items keeps keys canonical and the default |
| Stores.Build | latencycontroller.py:1182-1186 | a new store has canonical keys and the given default |
| Stores.UpdateAllHasLink | latencycontroller.py:1184-1185 | after the initial writes a link is present exactly when it was before or some item names it in either order |
| Stores.UpdateAllUnique | latencycontroller.py:1184-1185 | a link named by exactly one item holds that item's value |
| Stores.UpdateAllValue | latencycontroller.py:1184-1185 | every link reads its old value or the value of some item naming it |
| Stores.UpdateAllCanonical | latencycontroller.py:1184-1185 | distinct canonical items are stored as given, in order |
| Stores.BuildCopy | latencycontroller.py:1217-1218 | rebuilding a canonical store from its own pairs gives it back |
| Stores.Combine | latencycontroller.py:1199-1203 | `calculate` keeps the store's links in order, with default 0 |
| Stores.CombineLookup | latencycontroller.py:1199-1203 | `calculate(other, op)` holds exactly the store's links, each with `op(own value, other's value)`, and reads 0 elsewhere |
| Stores.ReverseLookup | latencycontroller.py:1196-1197 | `reverse_lookup(val)` lists exactly the keys holding `val` |
| Stores.KeysWithValue | latencycontroller.py:1196-1197 | the comprehension keeps exactly the keys holding `val` |
| Stores.UsageStore.constructor | latencycontroller.py:1182-1186 | the constructor writes every initial item through `__setitem__` and sets the default |
| Stores.UsageStore.SetItem | latencycontroller.py:1208-1209 | `__setitem__` stores the value under the sorted pair |
| Stores.UsageStore.Copy | latencycontroller.py:1217-1221 | `copy()` is a new store rebuilt from the pairs and default, equal to the original when its keys are canonical |
| Stores.UsageStore.Calculate | latencycontroller.py:1199-1203 | `calculate` returns a new store holding the combined values |
| Stores.FlowPairsTotal | latencycontroller.py:1297-1308 | the flow view has exactly the links some ledger entry travels on, each with the sum of their rates |
| Stores.OnLinkSnoc | latencycontroller.py:1300-1303 | one more entry puts its link on the view |
| Stores.FlowPairsKeys | latencycontroller.py:1300-1303 | the view's links are exactly the entries' links |
| Stores.FlowPairsSums | latencycontroller.py:1304-1307 | each link holds the sum of its entries, and a link with no entry sums to 0 |
| Stores.FlowProxyStorage | latencycontroller.py:1310-1311 | `to_regular_storage()` is a canonical store of the view, default 0 |
| Stores.FlowProxyGetItem | latencycontroller.py:1188-1194 | reading the view succeeds exactly when some entry travels on the link, and gives their summed rate |
| Stores.Present | latencycontroller.py:1243-1250 | at most one value per store is collected |
| Stores.PresentEmpty | latencycontroller.py:1243-1250 | nothing is collected exactly when no store holds the link |
| Stores.ProxyGetItem | latencycontroller.py:1243-1253 | with no behaviour the default; otherwise the behaviour applied to the values the stores hold for the link |
| Stores.AllLinks | latencycontroller.py:1271-1275 | every link some store holds, each once |
| Stores.NewKeys | latencycontroller.py:1271-1275 | the keys not seen yet, each once |
| Stores.ProxyStorage | latencycontroller.py:1270-1277 | `to_regular_storage()` holds exactly the links of the underlying stores, each with the proxy's reading |
| Stores.WriteIfPresentTwice | latencycontroller.py:1258-1261 | writing through twice is writing once and does not change which links are present |
| Stores.ProxySetItem | latencycontroller.py:1255-1268 | every underlying store holding the link gets the value, the others are untouched, and `ValueError` is raised exactly when none holds it |
| Stores.WriteStep | latencycontroller.py:1258-1261 | one turn of the write loop |
| Stores.AnyHoldsSnoc | latencycontroller.py:1258-1266 | some store of a longer list holds the link when one of the shorter list does or the new one does |
| Stores.WriteThrough | latencycontroller.py:1259-1261 | one store is written only when it holds the link |
| Stores.AggregatorGetFirst | latencycontroller.py:1339-1343 | `get(q, e)` returns the value of the first dict holding `q` |
| Stores.AggregatorGetMissing | latencycontroller.py:1339-1343 | `get(q, e)` is `e` when no dict holds `q` |
| Stores.AggregatorGetDisjoint | latencycontroller.py:1339-1343 | with disjoint dicts `get` returns the one holder's value |
| Stores.AggregatorKeys | latencycontroller.py:1345-1350 | `keys()` is the union of the dicts' keys |
| Ledger.Ends | latencycontroller.py:622 | `newpath[0], newpath[-1]` fails with `IndexError` exactly when the first path is empty, and otherwise gives its ends |
| Ledger.CountOnMeaning | latencycontroller.py:474-480 | a link's count is at most the number of entries and positive exactly when some entry on it counts |
| Ledger.FlowsWithinRules | latencycontroller.py:474-480 | requiring positive bandwidth counts no more entries than `get_link_rules` does |
| Ledger.CountInto | latencycontroller.py:475-480 | the counting loop adds, per link, the number of counting entries and adds no other link |
| Ledger.CountStep | latencycontroller.py:476-479 | one more entry moves the loop invariant on |
| Ledger.CountOne | latencycontroller.py:477-479 | `cnt[k] = 1 + cnt[k]` for a counting entry on its canonical link, nothing otherwise |
| Ledger.LinkRules | latencycontroller.py:474-480 | `get_link_rules()`: per link, the number of entries with a positive rate |
| Ledger.LinkFlows | latencycontroller.py:526-533 | `get_link_flows()`: per link, the number of entries over all switches with positive rate and positive bandwidth |
| Ledger.FlowCountWithinRules | latencycontroller.py:526-533 | a link never has more counted flows than rules |
| Ledger.PathTerms | latencycontroller.py:596-604 | one term per hop of a path, in order |
| Ledger.RunMaxSpec | latencycontroller.py:593-604 | `ml = max(ml, x)` from 0 ends at least 0, at least every term, and equal to some term unless 0 |
| Ledger.HopTermsCover | latencycontroller.py:593-604 | every hop of every path contributes its term |
| Ledger.HopTermsSource | latencycontroller.py:593-604 | every term comes from a hop of some path |
| Ledger.HopMaxSpec | latencycontroller.py:593-604 | the running max over all hops bounds every hop's term and is one of them unless 0 |
| Ledger.Chain | latencycontroller.py:505-507 | the aggregated ledgers are the switches' ledgers, in order |
| Ledger.MaxFlowSpeed | latencycontroller.py:588-605 | `get_max_flow_speed` raises `IndexError` exactly when the first path is empty |
| Ledger.MaxFlowSpeedSpec | latencycontroller.py:588-605 | otherwise it is the largest weighted two-way rate between the route's ends over any hop, or 0 |
| Ledger.MaxPathLoadSpec | latencycontroller.py:607-618 | `get_max_path_load` is the largest `link_usage` over the route's hops, or 0 |
| Ledger.Keep | latencycontroller.py:627-632 | the keys kept are exactly those not between the new path's ends |
| Ledger.Strip | latencycontroller.py:625-632 | stripping drops exactly the entries between the ends and keeps the others' rates |
| Ledger.StripStart | latencycontroller.py:626 | the deletion loop starts from the untouched ledger |
| Ledger.StripDrop | latencycontroller.py:627-632 | an entry between the ends is deleted |
| Ledger.StripSkip | latencycontroller.py:627-632 | an entry not between the ends is kept |
| Ledger.StripEnd | latencycontroller.py:626-632 | after all entries the ledger is stripped |
| Ledger.StripLedger | latencycontroller.py:626-632 | the deletion loop over one ledger's copied keys computes the stripped ledger |
| Ledger.MapAll | latencycontroller.py:625 | mapping over the switches keeps them and their order |
| Ledger.StripAll | latencycontroller.py:625-632 | stripping every switch keeps them and their order |
| Ledger.MapStep | latencycontroller.py:625 | one more switch mapped |
| Ledger.MapEnd | latencycontroller.py:625 | mapping every switch gives the mapped table |
| Ledger.StripSwitches | latencycontroller.py:625-632 | the deletion loop over all switches computes the stripped switches |
| Ledger.Write | latencycontroller.py:640-643 | one ledger write keeps the switches and their order |
| Ledger.ApplyWrites | latencycontroller.py:636-643 | a run of writes keeps the switches and their order |
| Ledger.ApplyWritesMeaning | latencycontroller.py:640-643 | after the writes a switch keeps its name and bandwidth; a key that lands on it holds the last value written for it, other keys their old values |
| Ledger.WriteMeaning | latencycontroller.py:640-643 | one write lands only on the switch named by the key's second field, if that is a switch present in the table |
| Ledger.ApplyWritesSnoc2 | latencycontroller.py:638-643 | the `ky` and `rk` writes of one hop come last |
| Ledger.RouteWritesStep | latencycontroller.py:636-643 | one more path adds its writes after the earlier ones |
| Ledger.AddFlows | latencycontroller.py:634-643 | the loop over the new route's paths applies all its writes, in order |
| Ledger.AddItem | latencycontroller.py:636-643 | one path of the new route applies its writes |
| Ledger.ApplyWritesConcat | latencycontroller.py:636-643 | applying two runs of writes is applying the first, then the second |
| Ledger.ApplyWritesSnoc | latencycontroller.py:640-643 | applying one more write |
| Ledger.AddPath | latencycontroller.py:637-643 | the hop loop `for i in range(1, len(path)-1)` applies that path's writes |
| Ledger.AddHop | latencycontroller.py:638-643 | hop `i` writes `ky` then `rk` |
| Ledger.LastWriteConcat | latencycontroller.py:636-643 | the last write of a key is its last in the later run, else in the earlier |
| Ledger.LastWritePair | latencycontroller.py:640-643 | of `ky` then `rk`, `rk` wins |
| Ledger.PathWritesMeaning | latencycontroller.py:637-643 | a path writes exactly its inner `ky`/`rk` keys, all at the path's rate |
| Ledger.ItemWritesMeaning | latencycontroller.py:636-643 | a weighted path writes exactly its keys, at `weight * flowspeed / 2` |
| Ledger.RouteWritesKeys | latencycontroller.py:636-643 | a route writes exactly the keys of its paths |
| Ledger.RouteWritesValue | latencycontroller.py:636-643 | every written value is the rate of one of the route's paths |
| Ledger.WrittenSnoc | latencycontroller.py:636-643 | a key is written by one more path when it was before or the new path writes it |
| Ledger.SurgeryMeaning | latencycontroller.py:620-648 | after `with_modified_path`'s ledger surgery a switch keeps its name and bandwidth; its ledger holds its old entries not between the ends at their old rates and the route's entries landing on it at a path's rate |
| Ledger.DecayShrinks | latencycontroller.py:668-670 | a decay in [0, 1] never raises a non-negative prediction |
| Ledger.PredictBounds | latencycontroller.py:664-670 | a prediction is at least the hedged estimate, is the estimate or the decayed previous one, and with a decay in [0, 1] never exceeds the larger of the previous one and the estimate |
| Ledger.LastRateMeaning | latencycontroller.py:662-670 | a key has a last rate exactly when some switch holds it, and that rate is the last holder's |
| Ledger.HeldSnoc | latencycontroller.py:662-670 | some switch of a longer list holds the key when one of the shorter list does or the new one does |
| Ledger.LastRateSome | latencycontroller.py:662-670 | a key has a last rate exactly when some switch holds it |
| Ledger.LastRateHolder | latencycontroller.py:662-670 | the last rate is that of a switch after which no switch holds the key |
| Ledger.PredictLedgerMeaning | latencycontroller.py:663-670 | after one ledger, its keys hold their prediction and other keys keep theirs |
| Ledger.PredictionsMeaning | latencycontroller.py:662-670 | `next_prediction` has exactly the keys some switch holds, each predicted from the rate of the last switch holding it |
| Ledger.PredictInto | latencycontroller.py:663-670 | the loop over one ledger computes its predictions |
| Ledger.PredictEntry | latencycontroller.py:664-670 | one entry: the hedged estimate if it beats the previous prediction, else the larger of the decayed prediction and the estimate |
| Ledger.PredictAll | latencycontroller.py:662-670 | the loop over all switches computes `next_prediction` |
| Ledger.RescaledLedger | latencycontroller.py:672-673 | rescaling keeps a ledger's keys and order |
| Ledger.RescaleLedger | latencycontroller.py:672-673 | the loop writes each entry's prediction |
| Ledger.RescaleSwitches | latencycontroller.py:671-674 | the loop rescales every switch's ledger |
| Ledger.ScalingMeaning | latencycontroller.py:657-676 | after `copy_scaling` a switch keeps its name, bandwidth and key order, and each entry holds the prediction of the rate of the last switch holding its key |
| Network.NamedItems | latencycontroller.py:496-499 | the `{sw._sw: sw for sw in sws}` entries: one per switch, keyed by its name, in order |
| Network.NamedMeaning | latencycontroller.py:495-499 | a name is a key of the switch table exactly when some switch has it, and every entry is stored under its own name |
| Network.NamedValues | latencycontroller.py:541-545 | rebuilding the table from its values (as `copy` does) gives back the same table |
| Network.Modified | latencycontroller.py:620-648 | `with_modified_path`'s new switches, failing only with `IndexError` |
| Network.ModifiedMeaning | latencycontroller.py:620-648 | it fails exactly when the new route's first path or the old route's first path is empty; otherwise the switch names, order and bandwidths stay |
| Network.Normalized | latencycontroller.py:650-654 | `copy_normalized`'s fold of `with_modified_path` over every stored route, failing only with `IndexError` |
| Network.NormalizedSnoc | latencycontroller.py:652-653 | one more stored route applies one more `with_modified_path` |
| Network.NormalizedErrStays | latencycontroller.py:652-653 | once one step fails the whole fold fails |
| Network.NormalizedEmptyRoute | latencycontroller.py:652-653 | a stored route with an empty first path makes `copy_normalized` fail |
| Network.NormalizedNames | latencycontroller.py:650-654 | a successful fold keeps the switch names, order and keys |
| Network.PredictionKeys | latencycontroller.py:661-670 | `next_prediction` has exactly the keys held by some switch of the table |
| Network.LinkStores | latencycontroller.py:508-515 | the per-switch `_link_speed` stores, one per switch, in order |
| Network.PresentSum | latencycontroller.py:508-517 | summing the switches' readings of a link is the link's total speed over all switches |
| Network.LastPresent | latencycontroller.py:508-517 | one more switch adds its ledger's total on the link |
| Network.LastSpeedReading | latencycontroller.py:508-517 | `last_speed[a, b]` is the total rate on the link `{a, b}` over all switches, in either direction of asking |
| Network.LinkUsageReading | latencycontroller.py:518-523 | `link_usage` has exactly the links of `max_speed`, each reading `last_speed / max(max_speed, 1e-13)`, and reads 0 elsewhere |
| Network.SameMembersCanonicalise | latencycontroller.py:1146-1173 | whether a link is stored under its sorted ends depends only on which keys are present |
| Network.FromListHas | latencycontroller.py:1146-1173 | a store built from a list of entries has a link exactly when some entry names it, in either orientation |
| Network.FromListValue | latencycontroller.py:1146-1173 | every reading of such a store is the default or the value of some entry |
| Network.FromListUnique | latencycontroller.py:1146-1173 | a link named by one entry only reads that entry's value |
| Network.PortItems | latencycontroller.py:1146-1150 | `portno_from_list` pairs link `i`'s ends with port `i + 1` |
| Network.ZeroItems | latencycontroller.py:1153-1157 | `usage_store_from_list` pairs every link's ends with 0 |
| Network.BandwidthItems | latencycontroller.py:1169-1173 | `bandwidth_from_list` pairs every link's ends with its bandwidth |
| Network.LinkItemsHold | latencycontroller.py:1146-1173 | a store built from the topology's links has exactly the topology's links |
| Network.PortNumbersHold | latencycontroller.py:1146-1150 | the port numbers are known exactly for the topology's links |
| Network.BandwidthsHold | latencycontroller.py:1169-1173 | the bandwidths are known exactly for the topology's links |
| Network.ZeroUsageBuilt | latencycontroller.py:1153-1157 | the usage store has exactly the topology's links, all reading 0 |
| Network.PortAndBandwidth | latencycontroller.py:1146-1173 | a link listed once reads port `j + 1` and its own bandwidth |
| Network.HostRow | latencycontroller.py:1160-1166 | the entries for one host `x`: `(x, y)` with an empty route for every other host `y`, and nothing else |
| Network.HostPairs | latencycontroller.py:1160-1166 | `host_path_from_list`'s entries: every ordered pair of distinct hosts with an empty route, and nothing else |
| Network.HostPathsBuilt | latencycontroller.py:1160-1166 | the host-path store reads an empty route everywhere and has a link exactly for each pair of distinct hosts |
| Network.SimNetwork.constructor | latencycontroller.py:495-502 | the switch table is keyed by name, the routes and link speeds are those given, and the class invariant holds: every switch is stored under its own name and the route table's keys are canonical, as a `UsageStore` written through `_sort_pair` keeps them |
| Network.SimNetwork.GetRoutes | latencycontroller.py:535-536 | a fresh store holding the same routes |
| Network.SimNetwork.Copy | latencycontroller.py:541-545 | a fresh network with equal switches and a fresh copy of the routes |
| Network.SimNetwork.WithModifiedPath | latencycontroller.py:620-648 | fails with `IndexError` exactly as `Modified` does, leaving the routes alone; otherwise the copy's switches are the surgery's, the copy keeps the old routes, and this network's route between the ends becomes the new route as an aggregate, a plain path being wrapped as `{tuple(newpath): 1.0}` |
| Network.SimNetwork.ModifiedSwitches | latencycontroller.py:621-645 | the copy, strip and add steps on the switch table compute `Modified` |
| Network.SimNetwork.CopyNormalized | latencycontroller.py:650-654 | fails with `IndexError` exactly as `Normalized` does; otherwise the result's switches are the fold over the stored routes and its routes are the stored ones |
| Network.SimNetwork.CopyScaling | latencycontroller.py:657-676 | `next_prediction` is the prediction from the last switch holding each key, with exactly the keys some switch holds; the copy's ledgers hold those predictions |
| Viewer.StepFails | topoviewer.py:42-56 | one line raises `ValueError` exactly when it starts with `@` but is neither `@end…` nor `@start.…` ending in `path` or `load` |
| Viewer.StartIsMarker | topoviewer.py:42-43 | a `@start.` line takes the command branch and is not an `@end` line |
| Viewer.ScanBlocks | topoviewer.py:39-57 | the line loop computes the block scan of all the lines, or the first exception |
| Viewer.FeedStops | topoviewer.py:41-57 | once a line raises, the lines after it do not matter |
| Viewer.FeedFails | topoviewer.py:41-57 | the scan raises exactly when some line is a bad command, and then with `ValueError` |
| Viewer.FeedConcat | topoviewer.py:41-57 | scanning two runs of lines is scanning the first and continuing from its state |
| Viewer.Eval | topoviewer.py:55-57 | each data line becomes one entry, read by the given evaluator |
| Viewer.FeedData | topoviewer.py:53-57 | data lines go to the path list inside a path block, to the load list inside a load block, and are dropped outside |
| Viewer.OpenLine | topoviewer.py:43-47 | `@start.…path` opens a path block and `@start.…load` a load block, keeping what was read |
| Viewer.CloseLine | topoviewer.py:50-51 | `@end…` closes the current block |
| Viewer.BlockRead | topoviewer.py:41-57 | a well-formed block appends its evaluated lines to the path list or to the load list and leaves the scan outside any block |
| Viewer.Hops | topoviewer.py:62-63 | a path of `n >= 2` nodes has `n-1` hops and a shorter one none |
| Viewer.SumWeights | topoviewer.py:60 | the loop computes the sum of the mapping's weights |
| Viewer.AssignHops | topoviewer.py:62-63 | the hop loop writes the share under each hop's sorted pair, in order |
| Viewer.AddPaths | topoviewer.py:61-63 | the loop over one mapping's paths computes its writes, or `ZeroDivisionError` |
| Viewer.PathsStop | topoviewer.py:61-63 | once a path raises, the later paths do not matter |
| Viewer.SegmentsStop | topoviewer.py:59-63 | once a mapping raises, the later mappings do not matter |
| Viewer.PathSegments | topoviewer.py:59-63 | the outer loop computes the segment shares of all mappings, or the first exception |
| Viewer.AssignValues | topoviewer.py:62-63 | after writing one value under a run of keys, those keys hold it, other keys keep theirs and no key appears that was in neither |
| Viewer.AddPathValues | topoviewer.py:62-63 | a path with a hop raises `ZeroDivisionError` exactly when the weight sum is zero; otherwise its hops get `weight/ws` and nothing else changes |
| Viewer.HasHopSnoc | topoviewer.py:61-63 | a mapping has a path with a hop when its prefix has one or its last path has at least two nodes |
| Viewer.PathsFail | topoviewer.py:61-63 | a mapping raises exactly when its weight sum is zero and some path has a hop, always with `ZeroDivisionError` |
| Viewer.PathsWrite | topoviewer.py:61-63 | after one mapping the keys are the old ones and its hops; the last path's hops hold its share; keys it does not touch keep their values |
| Viewer.WeightSumNonNegative | topoviewer.py:60 | non-negative weights sum to a non-negative total |
| Viewer.WeightSumBound | topoviewer.py:60 | each non-negative weight is at most the total |
| Viewer.ShareBound | topoviewer.py:63 | a weight between zero and a non-zero total gives a share between 0 and 1 |
| Viewer.PathsShare | topoviewer.py:61-63 | with non-negative weights every segment share written is between 0 and 1 |
| Viewer.SharesAreFractions | topoviewer.py:59-63 | a whole mapping with non-negative weights leaves every segment value between 0 and 1 |
| Viewer.ZeroMappingSnoc | topoviewer.py:59-63 | the mappings hold a zero-sum one with a hop when the prefix does or the last one is such |
| Viewer.SegmentsFail | topoviewer.py:59-63 | the segment loop raises exactly when some mapping with a hop has weights summing to zero, always with `ZeroDivisionError` |
| Viewer.Loads | topoviewer.py:64-65 | the load loop computes the load map |
| Viewer.LoadsLastWins | topoviewer.py:64-65 | a pair is in the load map exactly when some load names it, and its value is the one of the last load naming it |
| Viewer.ParseState | topoviewer.py:38-66 | `parse_state` returns the mappings read, the segment shares and the loads, or the first exception |
| Viewer.ParseStateFails | topoviewer.py:38-66 | `parse_state` raises `ValueError` exactly when some line is a bad command; otherwise it raises only for a zero-sum mapping with a hop |
| Table.Phrases.Lookup | topotable.py:37-41 | the phrase of a known key, the key itself otherwise |
| Table.FillColumn | topotable.py:51-52 | the inner loop fills column `col` with the formatted entries when every row has one, touching no other cell and not the header |
| Table.FillBody | topotable.py:50-52 | the nested loop fills every body cell exactly when every entry exists, leaving row 0 and column 0 alone |
| Table.BuildTable | topotable.py:44-55 | a `len(rws)+1` by `len(clmns)+1` grid: the column phrases on top, the row phrases down the side, the field phrase in the corner and the formatted entries inside; `KeyError` exactly when an entry is missing |
| Autotest.SliceBound | topoautotest.py:46-48 | Python's clamping of a slice bound, negative bounds counting from the end |
| Autotest.HostPairs | topoautotest.py:44-49 | `len(hosts)//2` pairs, pair `i` joining the `i`-th host and the `i`-th from the end |
| Autotest.Paired | topoautotest.py:44-49 | every host but the middle one of an odd count is in a pair |
| Autotest.PairsDisjoint | topoautotest.py:44-49 | with distinct hosts no pair joins a host to itself and no two pairs share a host |
| Autotest.MiddleUnpaired | topoautotest.py:44-49 | the middle host of an odd count is in no pair |
| Autotest.PingAndIperf | topoautotest.py:180 | the unpacking raises `ValueError` exactly on an empty list, and otherwise splits off the first pair |
| Autotest.TestPlan | topoautotest.py:179-180 | with two or more hosts the ping runs between the first and last host next to `len(hosts)//2 - 1` iperf pairs; with fewer the unpacking raises |
| Boxplot.ListFind | topoboxplot.py:21-25 | the index of the first occurrence, or -1 exactly when the item is absent |
| Boxplot.ListFindInjective | topoboxplot.py:21-25 | two items found at the same index are the same item |
| Boxplot.FlattenLength | topoboxplot.py:55-56 | the flattened list is as long as the sub-lists together |
| Boxplot.FlattenConcat | topoboxplot.py:55-56 | flattening two runs of sub-lists is flattening each and concatenating |
| Boxplot.FlattenMember | topoboxplot.py:55-56 | an item is in the flattened list exactly when it is in some sub-list |
| Boxplot.StrLeTotal | topoboxplot.py:247-254 | any two names compare one way or the other |
| Boxplot.StrLeTrans | topoboxplot.py:247-254 | the name order is transitive |
| Boxplot.StrLeAntisym | topoboxplot.py:247-254 | names ordered both ways are equal |
| Boxplot.KeyLeTotal | topoboxplot.py:247-254 | any two sort keys compare one way or the other |
| Boxplot.KeyLeTrans | topoboxplot.py:247-254 | the sort-key order is transitive |
| Boxplot.KeyLeAntisym | topoboxplot.py:247-254 | keys never tie between different names |
| Boxplot.Insert | topoboxplot.py:247-254 | placing one name adds exactly that name |
| Boxplot.SortByPreference | topoboxplot.py:247-254 | the sorted names are a permutation of the given ones |
| Boxplot.InsertSorted | topoboxplot.py:247-254 | placing a name into a sorted list keeps it sorted by key |
| Boxplot.SortSorted | topoboxplot.py:247-254 | the result is sorted by `(listfind(order, a), a)` |
| Boxplot.PreferredOrder | topoboxplot.py:247-254 | names missing from the preference list come first in alphabetical order; listed names follow the list |
| Boxplot.Axis | topoboxplot.py:286-300 | the axis is the sorted names followed by `'all'` |
| Boxplot.AxisSorted | topoboxplot.py:247-254 | the axis before `'all'` is in preference order |
| Boxplot.AxisEnds | topoboxplot.py:247-254 | with a preference list starting at `first` and ending at `last`, no name follows a `last` column, and only unlisted names precede a `first` column |
| Boxplot.AlgosAxisEnds | topoboxplot.py:247-250 | with `ALGOS_PREFERRED_ORDER`, no algorithm follows an `ecmp` column, and only unlisted algorithms precede an `ospf` column |
| Boxplot.ToposAxisEnds | topoboxplot.py:251-254 | with `TOPOS_PREFERRED_ORDER`, no topology follows a `principle` column, and only unlisted topologies precede a `simpletree` column |

## Left out

- The Ryu southbound code of `LatencyController` (OpenFlow messages, port statistics turned into Mbps) and the `LatencyApp` monitoring loop (threads, process pools, timers): this is I/O and concurrency.
- Module start-up of latencycontroller.py (command line, the topology JSON, `variables.ini`, the cached alternate-path file): the topology, the capacities and the configuration values are parameters of the model.
- `LDRPathEvaluator`: it solves a linear program through the `pulp` library, a foreign solver.
- `LDRSinglePathEvaluator`, `MinMaxSinglePathEvaluator` and the null evaluator: their visiting order comes from `random.shuffle` and they read module globals.
- `get_max_flow_load` and `sort_by_max_flow_load`: they divide by link capacities that are `None` for unlimited links.
- `_update_performance_state` and every other file write, and the `__str__`/`__repr__` methods of the stores and of `WeightedPathAggregate`: text output of floats.
- `DictAggregator.__getitem__`'s fallback, which indexes a list with a key and only raises; `get`, `keys`, `values` and `items` are modelled.
- `UsageStoreProxyFromCallableIterable.frozen`, `AttrCallableIterable` and `ValueGetterCallable`: the stores they expose are passed as values, so attribute lookup by name is not modelled.
- Floating point: rates, weights and loads are real numbers, so rounding is not modelled; link capacities are integers (see the `Topology.Link` line).
- Caches that `_reinit` recomputes (`_link_rules`, `_flow_speed`, `last_speed`, `link_usage`, `link_flows`) are functions of the ledgers rather than stored fields; they always agree with the ledgers, as `_reinit` is called after every change.
- Switch ledgers are values inside the network's switch table, so sharing a ledger between two networks is not modelled; every `copy()` in the source copies the ledgers, so no sharing arises there.
- Ledger.RescaledLedger: a key missing from the predictions would raise `KeyError` in the source; the model keeps the old rate there, and `Network.SimNetwork.CopyScaling` shows every key has a prediction.
- Weighted.Orient: the source raises on an empty path before orienting it; the model leaves an empty path as it is.
- Graph.Dijkstra: the source picks among equally near nodes by set iteration order; the model allows any of them, so the predecessor chosen among equally short ones is not fixed.
- Graph.Paths: `_find_all_paths` is a generator; the model returns the whole sequence it yields.
- Render.SortByNum: Python's `sorted` is stable; the contract states that the result is ascending and a permutation, not the order of equal numbers.
- Render.RenderTopology: `os.linesep` is the parameter `eol`; `main`'s file reading and writing is not modelled.
- Non-canonical node spellings such as `h01` are only represented by `NodePair.SortPairText`; everywhere else a node is its kind letter and number.
- The topology builders' counters are module globals in the source and parameters here; the fixed sizes and link speeds of each builder are constants of its module.
- DCell.CircularRShift: it is defined in topocreatedcell.py but never called by the builders; its error path (an empty list) is modelled but not reached.
- The `while` pairing loop of topocreatedcell.py and topocreatedcellswitched.py does not terminate unless there is one cell more than hosts per cell; the model fixes that relation, as the source's constants do.
- Viewer.ParseState: `eval` of each line is the parameter pair `pathOf`/`loadOf`, the file is already split into lines, and the floats are real numbers; the order of the resulting dicts is not stated.
- Table.BuildTable: `str()` of a cell is the parameter `fmt`; `tbl2csv` and the float formatters are not modelled.
- topoautotest.py apart from `make_host_pairs`, and the iperf/ping output parsing: subprocesses, sleeps and text parsing of floats.
- topoboxplot.py apart from `listfind`, `flatten` and the axis ordering: plotting, `tbl2tex` and the per-run aggregation.
- toporenderpdfgraph.py, topomn2json.py, topoautostandalonetest.py and the generated Mininet scripts: drawing, file conversion and emulator calls.
- NodePair.ParseNodeId: `int()` is modelled on an optional sign and ASCII digits only; Python's `int()` also accepts surrounding whitespace, single underscores between digits and non-ASCII digits (`"s 7"`, `"s1_0"`), which the model rejects with `ValueError`. The builders and the controller never write such names.
- NodePair.SortPairText: for the same reason, two same-kind names whose suffix Python's `int()` reads only through whitespace, underscores or non-ASCII digits raise `ValueError` in the model but are ordered by the source.
- Address.IpToId: a dot field with surrounding whitespace or underscores (`"10.0.0. 1"`) is read by the source's `int()` but is a `ValueError` in the model.
- Address.MacToId: `int(x, 16)` is modelled on an optional sign and hex digits only; a field with a `0x` prefix, surrounding whitespace or underscores is read by the source but is a `ValueError` in the model.
- Topology.Link: a link's capacity is an integer and is always present. The controller reads capacities from JSON, where they can be fractional or `None` for an unlimited link; a `None` capacity makes `_reinit` raise `TypeError` at `max(maxspeed, 0.0000000000001)` (latencycontroller.py:518-522), and neither that error nor a fractional capacity is modelled.
- Ledger.CountOn: the source's `switch._bandwidth[key]` reads the store's default for an unknown link; the model reads the same default through `Stores.Lookup`.

## Findings

| source | as written | input that shows it | evidently intended | confidence | as-written member | corrected member |
|---|---|---|---|---|---|---|
| id2ip.py:30-31 | `int2hexbyte(n)` formats `hex(256)` and keeps its last two digits, ignoring `n`, so every byte reads `00` | any id, for example 0: `id2mac(0)` is `6f:3d:01:00:00:00` and `mac2id` of it is −1, not 0 | each byte written as the two hex digits of `n`, so that `mac2id(id2mac(s)) == s` | high; not executed | Address.MacRoundTripBroken | Address.MacRoundTrip |
