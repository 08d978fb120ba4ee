# brave-ios core logic in Dafny

This project models five small pieces of logic from the Brave iOS browser and proves what they promise.

- **Array utilities**: the generic extensions `sameElements`, `find`, `contains(_:f:)`, `union`, `unique(_:)`, `unique(f:)`, `splitEvery`, `every` and `subscript(safe:)`.
- **Wallet onboarding**: the `CreatePathStep` enum with its raw-value `next`/`previous`, and the onboarding reducer.
- **Page-zoom stepper**: the "-"/"+" buttons walking a fixed list of zoom steps, the reset button, the `didSet` callback, and the label of the centre button.
- **History entries**: the date buckets of the history list, the `created` setter, `update(customTitle:dateAdded:)`, and the searches `suffix` and `byFrequency` request.
- **Bookmark manager**: these rules run over an abstract bookmark store.
  - Which folder to open: `lastVisitedFolder`.
  - The folder path above it: `lastFolderPath`.
  - The parent a folder picker shows: `fetchParent`.
  - Children and search results without folders: `getChildren`, `byFrequency`.
  - Guarded deletes and edits: `delete`, `updateWithNewLocation`.

Files:

- `wrappers.dfy`: Swift optionals as `Option`.
- `array_extensions.dfy`: module `ArrayExtensions`.
  - Loops (`find`, `contains`, `every`, `sameElements`, both `unique`s) are methods proved against specification functions.
  - `union`, `splitEvery` and `subscript(safe:)` are functions.
- `onboarding.dfy`: module `Onboarding`.
  - The reducer assigns the fields of its `inout` state in a method, proved equal to the transition function `Transition`.
- `page_zoom.dfy`: module `PageZoom`.
  - `PageZoomView` is a class whose `currentValue` the buttons reassign.
  - `notified` records every value passed to `pageZoomUpdated`.
- `history.dfy`: module `History`.
  - `HistoryNode` is a class whose fields `Historyv2` updates in place.
- `bookmark_store.dfy`: module `BookmarkStore`, the bookmark engine.
  - The store is a map from node id to a record: parent, children, `isFolder`, `isVisible`, `canBeDeleted`, url and title.
  - `BookmarksAPI` also holds the root and mobile folder ids.
  - A ghost rank map makes the parent relation acyclic, so walks up the tree terminate.
  - The engine's `move(toParent:)`, `removeBookmark`, `setTitle` and `url` assignment are specified as functions on the store that keep it well formed.
- `bookmark_manager.dfy`: module `BookmarkManagement`, with the class `BookmarkManager` over an optional `BookmarksAPI`.

Inputs that the code reads from the outside world are parameters:

- the two preferences `showLastVisitedBookmarksFolder` and `lastBookmarksFolderNodeId`;
- the start of today and the length of a day, in place of the calendar;
- the current time for the `created` setter;
- the nodes a bookmark search delivers.

## Model

| member | source | states |
|---|---|---|
| ArrayExtensions.SameElements | Shared/Extensions/ArrayExtensions.swift:8-16 | true exactly when the two arrays hold the same elements with the same multiplicities; in particular false when the lengths differ |
| ArrayExtensions.Sort | Shared/Extensions/ArrayExtensions.swift:10-11 | `sorted(by: <)` yields an ascending permutation of its input |
| ArrayExtensions.SortedEqualIffSameMultiset | Shared/Extensions/ArrayExtensions.swift:10-15 | two ascending sequences are equal element by element exactly when they are the same multiset, which is why comparing the sorted arrays decides `sameElements` |
| ArrayExtensions.SortedSameMultisetEqual | Shared/Extensions/ArrayExtensions.swift:10-15 | two ascending sequences with the same multiset are equal |
| ArrayExtensions.Find | Shared/Extensions/ArrayExtensions.swift:21-28 | nil exactly when no element satisfies `f`; otherwise the element at the first index that satisfies `f` |
| ArrayExtensions.Contains | Shared/Extensions/ArrayExtensions.swift:30-37 | true exactly when some `y` in the array has `f(x, y)` |
| ArrayExtensions.FirstIndices | Shared/Extensions/ArrayExtensions.swift:46-57 | the indices `unique(_:)` keeps are increasing and are exactly those whose key no earlier element has |
| ArrayExtensions.Unique | Shared/Extensions/ArrayExtensions.swift:46-57 | the dictionary loop returns the input restricted to the first element of each key, in input order |
| ArrayExtensions.UniqueByKeysDistinct | Shared/Extensions/ArrayExtensions.swift:46-57 | the keys of the result are pairwise distinct |
| ArrayExtensions.UniqueByKeysCover | Shared/Extensions/ArrayExtensions.swift:46-57 | the result has exactly the keys of the input |
| ArrayExtensions.Union | Shared/Extensions/ArrayExtensions.swift:40-43 | defined as `self + arr` de-duplicated by key; its properties are in `UnionPrefersSelf` |
| ArrayExtensions.UnionPrefersSelf | Shared/Extensions/ArrayExtensions.swift:40-43 | `union` begins with `self` de-duplicated; every later element comes from `arr` and has a key that `self` lacks, so on a key collision `self` wins |
| ArrayExtensions.KeptIndices | Shared/Extensions/ArrayExtensions.swift:61-69 | the positions `unique(f:)` keeps, as increasing indices; their characterization is in `KeptIndicesCharacterized` |
| ArrayExtensions.UniqueWith | Shared/Extensions/ArrayExtensions.swift:61-69 | defined as the input at the kept positions; its properties are in `KeptIndicesCharacterized`, `UniqueWithNoLaterMatch` and `UniqueComparing` |
| ArrayExtensions.KeptIndicesCharacterized | Shared/Extensions/ArrayExtensions.swift:61-69 | `unique(f:)` keeps an element exactly when `f(e, r)` holds for no earlier kept `r` |
| ArrayExtensions.UniqueWithNoLaterMatch | Shared/Extensions/ArrayExtensions.swift:61-69 | in the result, no later element `e` has `f(e, r)` for an earlier element `r` |
| ArrayExtensions.UniqueComparing | Shared/Extensions/ArrayExtensions.swift:61-69 | the loop that appends when `contains` fails returns the in-order subsequence `KeptIndicesCharacterized` describes |
| ArrayExtensions.SplitEvery | Shared/Extensions/ArrayExtensions.swift:74-81 | defined as the chunks of length `n`; its properties are in `SplitEveryProperties` and `SplitEveryExample` |
| ArrayExtensions.SplitEveryProperties | Shared/Extensions/ArrayExtensions.swift:74-81 | `[]` for `n <= 0` or an empty array; `[self]` for `n >= count`; otherwise every chunk but the last has length `n`, the last has length 1 to `n`, and the chunks concatenate back to the array |
| ArrayExtensions.SplitEveryExample | Shared/Extensions/ArrayExtensions.swift:71-73 | `[1, 2, 3, 4, 5, 6].splitEvery(3)` is `[[1, 2, 3], [4, 5, 6]]` |
| ArrayExtensions.Every | Shared/Extensions/ArrayExtensions.swift:85-92 | true exactly when every element satisfies `f` |
| ArrayExtensions.SafeIndex | Shared/Extensions/ArrayExtensions.swift:96-99 | the element exactly when the index is valid, nil otherwise |
| Onboarding.FromRawValue | BraveWallet/Crypto/TCA/OnboardingReducer.swift:15-19 | `init(rawValue:)` succeeds exactly for 0 to 3, and the step it gives has that raw value |
| Onboarding.RawValueRoundTrip | BraveWallet/Crypto/TCA/OnboardingReducer.swift:15-19 | each step is rebuilt from its raw value |
| Onboarding.Next | BraveWallet/Crypto/TCA/OnboardingReducer.swift:21-23 | defined as the step with the next raw value; its properties are in `NextPreviousDefined` and `NextPreviousInverse` |
| Onboarding.Previous | BraveWallet/Crypto/TCA/OnboardingReducer.swift:24-26 | defined as the step with the previous raw value; its properties are in `NextPreviousDefined` and `NextPreviousInverse` |
| Onboarding.NextPreviousDefined | BraveWallet/Crypto/TCA/OnboardingReducer.swift:21-26 | `next` is nil only for `verifyPhrase`; `previous` is nil only for `createWallet` |
| Onboarding.NextPreviousInverse | BraveWallet/Crypto/TCA/OnboardingReducer.swift:21-26 | where defined, `next(previous(s)) == s` and `previous(next(s)) == s` |
| Onboarding.Transition | BraveWallet/Crypto/TCA/OnboardingReducer.swift:47-66 | defined as the state the reducer leaves for each action; its properties are in the action lemmas below |
| Onboarding.Reduce | BraveWallet/Crypto/TCA/OnboardingReducer.swift:44-67 | the field assignments of the reducer produce `Transition(state, action)`, and the effect is the mnemonic fetch exactly for `fetchRecoveryPhrase` |
| Onboarding.SetupStartsCreatePath | BraveWallet/Crypto/TCA/OnboardingReducer.swift:60-62 | `setupButtonTapped` sets the path to `.create(.createWallet)`, keeps the recovery phrase, and has no effect |
| Onboarding.RestoreStartsRestorePath | BraveWallet/Crypto/TCA/OnboardingReducer.swift:63-65 | `restoreButtonTapped` sets the path to `.restore`, keeps the recovery phrase, and has no effect |
| Onboarding.PhraseFetchedStoresPhrase | BraveWallet/Crypto/TCA/OnboardingReducer.swift:57-59 | `recoveryPhraseFetched(p)` stores `p` and keeps the path |
| Onboarding.MoveForwardAndFetchKeepState | BraveWallet/Crypto/TCA/OnboardingReducer.swift:48-56 | `moveForward` and `fetchRecoveryPhrase` leave the state unchanged; only the latter has an effect |
| Onboarding.ButtonsIdempotent | BraveWallet/Crypto/TCA/OnboardingReducer.swift:60-65 | applying either button action twice gives the state that applying it once gives |
| Onboarding.FetchRoundTrip | BraveWallet/Crypto/TCA/OnboardingReducer.swift:50-59 | fetching and then feeding back the delivered phrase stores that phrase and changes nothing else |
| PageZoom.StepsShape | Client/Frontend/Browser/PageZoomView.swift:10-21 | the steps increase strictly from `minValue` (50) to `maxValue` (300) and contain `defaultValue` (100) |
| PageZoom.FirstIndexOf | Client/Frontend/Browser/PageZoomView.swift:70 | `firstIndex(of:)` is nil exactly when the value is absent; otherwise it is the first index holding the value |
| PageZoom.Incremented | Client/Frontend/Browser/PageZoomView.swift:68-72 | defined as the level `increment` leaves behind; its properties are in `IncrementedSpec`, `IncrementedAt` and `IncrementDecrementInverse` |
| PageZoom.Decremented | Client/Frontend/Browser/PageZoomView.swift:74-78 | defined as the level `decrement` leaves behind; its properties are in `DecrementedSpec`, `DecrementedAt` and `IncrementDecrementInverse` |
| PageZoom.IncrementedSpec | Client/Frontend/Browser/PageZoomView.swift:68-72 | `increment` does nothing at `maxValue` or off the steps, and takes every other step to the immediately following one |
| PageZoom.DecrementedSpec | Client/Frontend/Browser/PageZoomView.swift:74-78 | `decrement` does nothing at `minValue` or off the steps, and takes every other step to the immediately preceding one |
| PageZoom.IncrementedAt | Client/Frontend/Browser/PageZoomView.swift:68-72 | step `i` goes to step `i + 1`, for all but the last step |
| PageZoom.DecrementedAt | Client/Frontend/Browser/PageZoomView.swift:74-78 | step `i` goes to step `i - 1`, for all but the first step |
| PageZoom.IncrementDecrementInverse | Client/Frontend/Browser/PageZoomView.swift:68-78 | on a step, `decrement` undoes `increment` below the maximum, and `increment` undoes `decrement` above the minimum |
| PageZoom.Tap | Client/Frontend/Browser/PageZoomView.swift:46-59 | defined as the level after one tap of "-", the centre button or "+"; its properties are in `TapKeepsStep` |
| PageZoom.TapAll | Client/Frontend/Browser/PageZoomView.swift:46-59 | defined as the level after a sequence of taps; its properties are in `TapAllKeepsStep` |
| PageZoom.TapKeepsStep | Client/Frontend/Browser/PageZoomView.swift:52-78 | one tap of any button keeps a step on the steps and within [min, max] |
| PageZoom.TapAllKeepsStep | Client/Frontend/Browser/PageZoomView.swift:68-78 | a level that starts on a step stays on the steps and within [min, max] after any sequence of taps, so the index never leaves the array |
| PageZoom.PageZoomView.SetCurrentValue | Client/Frontend/Browser/PageZoomView.swift:12-16 | each assignment sets the value and reports exactly that value to `pageZoomUpdated` |
| PageZoom.PageZoomView.Increment | Client/Frontend/Browser/PageZoomView.swift:68-72 | the new value is the `increment` of the old one; a notification happens exactly when the early returns do not |
| PageZoom.PageZoomView.Decrement | Client/Frontend/Browser/PageZoomView.swift:74-78 | the new value is the `decrement` of the old one; a notification happens exactly when the early returns do not |
| PageZoom.PageZoomView.ResetTapped | Client/Frontend/Browser/PageZoomView.swift:52-54 | the centre button sets the level to 100 and notifies, even when it already is 100 |
| PageZoom.PageZoomView.constructor | Client/Frontend/Browser/PageZoomView.swift:12-25 | the view starts at 100 with no notification, since a property's initial value does not fire `didSet` |
| PageZoom.PageZoomView.EnabledButtonsMove | Client/Frontend/Browser/PageZoomView.swift:46-78 | on a step, "-" is disabled exactly when `decrement` would leave the level unchanged and "+" exactly when `increment` would; an enabled button moves the level strictly in its direction |
| PageZoom.PageZoomView.MinusDisabled | Client/Frontend/Browser/PageZoomView.swift:47 | defined as `currentValue == minValue`; what it means for `decrement` is in `PageZoomView.EnabledButtonsMove` |
| PageZoom.PageZoomView.PlusDisabled | Client/Frontend/Browser/PageZoomView.swift:59 | defined as `currentValue == maxValue`; what it means for `increment` is in `PageZoomView.EnabledButtonsMove` |
| PageZoom.DecimalRoundTrip | Client/Frontend/Browser/PageZoomView.swift:81 | the decimal digits of the interpolated integer read back as that integer, with no leading zero |
| PageZoom.PercentDisplay | Client/Frontend/Browser/PageZoomView.swift:80-84 | defined as the centre button's label; its properties are in `PercentDisplayShape`, `PercentDisplayRoundTrip` and `PercentDisplayLength` |
| PageZoom.PercentDisplayShape | Client/Frontend/Browser/PageZoomView.swift:80-84 | the label is the digits, "%", and one space exactly when the digits number fewer than three |
| PageZoom.PercentDisplayRoundTrip | Client/Frontend/Browser/PageZoomView.swift:80-84 | stripping the padding and "%" from a label gives back the percentage it shows |
| PageZoom.PercentDisplayLength | Client/Frontend/Browser/PageZoomView.swift:80-84 | a percentage of two or more digits gets a label of at least four characters |
| PageZoom.StepLabelsAreWide | Client/Frontend/Browser/PageZoomView.swift:80-84 | every step's label has at least four characters |
| History.GetDate | Client/Frontend/Sync/BraveCore/History/Historyv2.swift:109-120 | the threshold for an offset of 0 days is the start of today, and with days of positive length a threshold lies before the start of today exactly when its offset is negative |
| History.FetchHistoryTimePeriod | Client/Frontend/Sync/BraveCore/History/Historyv2.swift:90-107 | defined as the first threshold, newest first, that the date is strictly after; its properties are in `BucketIntervals`, `MidnightIsYesterday` and `BucketMonotone` |
| History.BucketIntervals | Client/Frontend/Sync/BraveCore/History/Historyv2.swift:90-107 | with days of non-negative length, each bucket is one half-open interval: today is strictly after midnight; yesterday, last week and this month lie between consecutive thresholds at −1, −7 and −31 days; anything older, or a nil date, gets no section |
| History.MidnightIsYesterday | Client/Frontend/Sync/BraveCore/History/Historyv2.swift:96-99 | a visit exactly at midnight is not today's but yesterday's, because the comparison is strict |
| History.BucketMonotone | Client/Frontend/Sync/BraveCore/History/Historyv2.swift:91-104 | a later visit never falls into an older bucket than an earlier visit |
| History.Historyv2.constructor | Client/Frontend/Sync/BraveCore/History/Historyv2.swift:53-55 | `init(with:)` wraps the given node |
| History.Historyv2.Created | Client/Frontend/Sync/BraveCore/History/Historyv2.swift:67-70 | the getter is never nil: the node's `dateAdded` is not optional, which the setter's `newValue ?? Date()` at line 73 also shows; so `sectionID` never takes the nil-date branch of the bucket function |
| History.Historyv2.SectionId | Client/Frontend/Sync/BraveCore/History/Historyv2.swift:81-104 | the section is today exactly when the creation date is after the start of today, and some section whenever the date is after the 31-day threshold |
| History.Historyv2.SetCreated | Client/Frontend/Sync/BraveCore/History/Historyv2.swift:72-74 | setting nil stores the current time and setting a date stores that date, and the getter then returns what was stored; title and url stay |
| History.Historyv2.Update | Client/Frontend/Sync/BraveCore/History/Historyv2.swift:159-167 | the title changes only when a title is given, the date only when a date is given, and the url never |
| History.SuffixRequest | Client/Frontend/Sync/BraveCore/History/Historyv2.swift:145-149 | `suffix` searches without a query for `max(20, maxLength)` results, never fewer than 20 |
| History.ByFrequencyRequestAsWritten | Client/Frontend/Sync/BraveCore/History/Historyv2.swift:151-157 | a nil or empty query returns before any search, so completion is never called; past the guard, the search carries no query and asks for 200 |
| History.ByFrequencyIgnoresQuery | Client/Frontend/Sync/BraveCore/History/Historyv2.swift:154 | as written, the queries "abc" and "xyz" make the same request, which does not carry the query |
| History.ByFrequencyRequest | Client/Frontend/Sync/BraveCore/History/HistoryAPI.swift:42-50 | corrected: the same guard, then a search for the given query with at most 200 results |
| History.ByFrequencyRequestDistinguishesQueries | Client/Frontend/Sync/BraveCore/History/HistoryAPI.swift:42-50 | corrected, different non-empty queries make different requests, and the guard agrees with the as-written version |
| BookmarkStore.AncestorRank | Client/Frontend/Sync/BraveCore/Bookmarks/BookmarkManager.swift:80-87 | an ancestor is a node of no greater rank, which bounds the walk up the tree |
| BookmarkStore.Reparent | Client/Frontend/Sync/BraveCore/Bookmarks/BookmarkManager.swift:226 | the item gets the new parent, leaves the old parent's children and is appended to the new parent's; its properties are in `ReparentFields` and `MoveEffect` |
| BookmarkStore.EngineMove | Client/Frontend/Sync/BraveCore/Bookmarks/BookmarkManager.swift:226 | defined as `Reparent` when the target is a node outside the item's subtree, otherwise the unchanged store; its properties are in `MoveWellFormed`, `MoveEffect` and `EngineMoveFields` |
| BookmarkStore.MoveWellFormed | Client/Frontend/Sync/BraveCore/Bookmarks/BookmarkManager.swift:226 | a move the engine accepts keeps the store well formed: parents are nodes, the parent relation is acyclic, and parent and child links agree |
| BookmarkStore.MoveEffect | Client/Frontend/Sync/BraveCore/Bookmarks/BookmarkManager.swift:226 | an accepted move makes the target the item's parent, appends the item as its last child, and takes it out of the old parent's children |
| BookmarkStore.ReparentFields | Client/Frontend/Sync/BraveCore/Bookmarks/BookmarkManager.swift:226 | a move changes only the item's parent and the children lists of the old and new parents |
| BookmarkStore.RemoveSubtree | Client/Frontend/Sync/BraveCore/Bookmarks/BookmarkManager.swift:215 | `removeBookmark` leaves exactly the nodes outside the item's subtree, so the item itself is gone |
| BookmarkStore.RemoveWellFormed | Client/Frontend/Sync/BraveCore/Bookmarks/BookmarkManager.swift:215 | removal keeps the store well formed, and surviving nodes keep their parents and attributes |
| BookmarkStore.RemoveChildren | Client/Frontend/Sync/BraveCore/Bookmarks/BookmarkManager.swift:215 | surviving nodes keep their children lists, except that the item's parent loses the item |
| BookmarkStore.AttributeUpdateWellFormed | Client/Frontend/Sync/BraveCore/Bookmarks/BookmarkManager.swift:229-235 | changing a title or a url keeps the store well formed |
| BookmarkStore.BookmarksAPI.GetNodeById | Client/Frontend/Sync/BraveCore/Bookmarks/BookmarkManager.swift:51-52 | `getNodeById` finds exactly the ids the store has |
| BookmarkStore.BookmarksAPI.RootNode | Client/Frontend/Sync/BraveCore/Bookmarks/BookmarkManager.swift:75 | `rootNode` is the engine's root id exactly when the store holds that node, and nil otherwise |
| BookmarkStore.BookmarksAPI.MobileNode | Client/Frontend/Sync/BraveCore/Bookmarks/BookmarkManager.swift:104 | `mobileNode` is the engine's mobile folder id exactly when the store holds that node, and nil otherwise |
| BookmarkStore.BookmarksAPI.Move | Client/Frontend/Sync/BraveCore/Bookmarks/BookmarkManager.swift:226 | `move(toParent:)` reparents the item when the target is a node outside its subtree, and otherwise changes nothing; the store stays well formed |
| BookmarkStore.BookmarksAPI.RemoveBookmark | Client/Frontend/Sync/BraveCore/Bookmarks/BookmarkManager.swift:215 | the store loses the item's subtree and stays well formed |
| BookmarkStore.BookmarksAPI.SetTitle | Client/Frontend/Sync/BraveCore/Bookmarks/BookmarkManager.swift:230 | only the item's title changes |
| BookmarkStore.BookmarksAPI.SetUrl | Client/Frontend/Sync/BraveCore/Bookmarks/BookmarkManager.swift:234 | only the item's url changes |
| BookmarkManagement.BookmarkManager.constructor | Client/Frontend/Sync/BraveCore/Bookmarks/BookmarkManager.swift:19-22 | the manager keeps the given engine, or none, and is ready for use (`Valid()`) when that engine's store is well formed; the root id it records is the engine's root, which the model reads from the engine itself |
| BookmarkManagement.BookmarkManager.LastVisitedFolder | Client/Frontend/Sync/BraveCore/Bookmarks/BookmarkManager.swift:31-61 | nil without an engine; the mobile folder when the preference is off or no id is stored; nil (the root) for the stored id −1; the stored folder when it resolves and is visible; the mobile folder otherwise |
| BookmarkManagement.BookmarkManager.LastFolderPath | Client/Frontend/Sync/BraveCore/Bookmarks/BookmarkManager.swift:63-97 | `[]` without an engine. When the stored folder resolves and is visible, the path ends with it; all its elements are visible; none above the folder is the root; each element is the parent of the next; and the walk stopped at the top. Otherwise the path is `[mobile]`, or `[]` without a mobile folder. Except for the stored id −1, the path ends with `lastVisitedFolder()`. |
| BookmarkManagement.BookmarkManager.MobileNode | Client/Frontend/Sync/BraveCore/Bookmarks/BookmarkManager.swift:99-108 | nil without an engine; otherwise exactly the engine's mobile folder when the store holds it, and nil when it does not |
| BookmarkManagement.BookmarkManager.FetchParent | Client/Frontend/Sync/BraveCore/Bookmarks/BookmarkManager.swift:110-125 | the item's parent, except that nil comes back for a nil item, no engine, no parent or a root parent |
| BookmarkManagement.NonFolderIndices | Client/Frontend/Sync/BraveCore/Bookmarks/BookmarkManager.swift:169 | the filter keeps, in order, exactly the positions that do not hold folders |
| BookmarkManagement.NonFolders | Client/Frontend/Sync/BraveCore/Bookmarks/BookmarkManager.swift:182 | exactly the non-folders of the input, in order: the input at the positions `NonFolderIndices` characterizes, so no folder, every non-folder, nothing from outside the input and nothing added |
| BookmarkManagement.BookmarkManager.GetChildren | Client/Frontend/Sync/BraveCore/Bookmarks/BookmarkManager.swift:167-170 | all children in order when folders are included; otherwise exactly the non-folder children, in order |
| BookmarkManagement.BookmarkManager.ByFrequency | Client/Frontend/Sync/BraveCore/Bookmarks/BookmarkManager.swift:172-184 | completes with `[]` and searches nothing for a nil or empty query or without an engine; otherwise searches for the query with at most 200 results and completes with the non-folders found, in order; the search results are nodes of the engine, as the engine's search returns its own nodes |
| BookmarkManagement.BookmarkManager.Delete | Client/Frontend/Sync/BraveCore/Bookmarks/BookmarkManager.swift:209-217 | the item's subtree is removed when `canBeDeleted` holds, and otherwise nothing changes; the store stays well formed |
| BookmarkManagement.BookmarkManager.UpdateWithNewLocation | Client/Frontend/Sync/BraveCore/Bookmarks/BookmarkManager.swift:219-241 | the engine calls leave the store `UpdatedStore` describes, and the store stays well formed |
| BookmarkManagement.UpdatedStore | Client/Frontend/Sync/BraveCore/Bookmarks/BookmarkManager.swift:219-241 | defined as the move, title and url steps of `updateWithNewLocation` in order; its properties are in `UpdateWithoutTarget`, `UpdatedItem`, `UpdatedOthers` and `FolderUrlUnchanged` |
| BookmarkManagement.UpdateWithoutTarget | Client/Frontend/Sync/BraveCore/Bookmarks/BookmarkManager.swift:224-240 | with no location and no mobile folder, nothing changes |
| BookmarkManagement.UpdatedItem | Client/Frontend/Sync/BraveCore/Bookmarks/BookmarkManager.swift:224-237 | with a target, the item moves only when the target differs from its parent and the engine accepts; the title is set only when given; the url is set only when given and the item is not a folder |
| BookmarkManagement.UpdatedOthers | Client/Frontend/Sync/BraveCore/Bookmarks/BookmarkManager.swift:224-237 | every other node keeps its title, url and flags, and no node's folder, visibility or deletability flag changes |
| BookmarkManagement.UpdatedLinks | Client/Frontend/Sync/BraveCore/Bookmarks/BookmarkManager.swift:224-227 | every node but the item keeps its parent; children lists change only as the accepted move describes, so only the old and new parents' lists can change |
| BookmarkManagement.FolderUrlUnchanged | Client/Frontend/Sync/BraveCore/Bookmarks/BookmarkManager.swift:233-236 | a folder's url is never set |
| BookmarkManagement.EngineMoveFields | Client/Frontend/Sync/BraveCore/Bookmarks/BookmarkManager.swift:226 | the engine's move changes only links, and changes the item's parent exactly when it accepts the move |

## Left out

- I/O and concurrency are not modelled:
  - the Composable Architecture `Effect.future` and the keyring controller's `mnemonic` call are only named by the `FetchMnemonic` effect;
  - `waitForBookmarkModelLoaded`, `waitForHistoryServiceLoaded` and `addFavIconObserver` are observer and main-queue code;
  - the `frc` and `foldersFrc` fetcher constructors wrap engine state that is not part of this model;
  - the logger calls in `updateWithNewLocation` have no observable effect on the store.
- `reorderBookmarks`:
  - its move to an index depends on fetched-results-controller index paths;
  - its delegate reload is UI glue.
- `addFolder` and `add`: calls that create nodes in the engine, whose id allocation is not part of this model.
- `Historyv2.add`, `delete`, `deleteAll` and `frc`: pure forwarding to the history engine.
- The static `BookmarkManager.rootNodeId` cache: Dafny classes have no mutable static fields, and no modelled operation reads it; the engine's root id is used directly.
- SwiftUI layout and the `title`, `url` and `domain` getters: presentation only.
- `getDate`: the Gregorian calendar, `Date()`, time zones, daylight saving time and the fallback to the current time are not modelled. The start of today and a fixed day length are parameters.
- PageZoom's `Double` levels and `rounded()`: the steps are exact integer percentages, on which rounding is the identity.
  - In the source every level is a step: the initial value is `defaultValue`, and every assignment writes `defaultValue` or an element of `steps` (PageZoomView.swift lines 53, 71 and 77). `TapAllKeepsStep` proves the same of the model.
  - The off-step clauses of `IncrementedSpec` and `DecrementedSpec` only model the `guard … else { return }` at lines 70 and 76, which never fires from a reachable state.
- ArrayExtensions.SameElements: modelled on sequences of integers, one instance of the `Comparable` elements the source accepts.
- The bookmark engine itself is not part of this model:
  - its move places the node last among the new parent's children;
  - it refuses a move into the node's own subtree;
  - removal takes the whole subtree;
  - nothing about sync or storage is modelled.
- BookmarkManagement.BookmarkManager.GetChildren: the node is looked up in the engine's store, so the model needs an engine where the source only needs the node object.
- `guid` and `nodeId` are one integer id.
- `fetchHistoryTimePeriod(visited:)` never reads its `visited` parameter; it compares the entry's `created` date. Its only caller passes `created`, so the model's `FetchHistoryTimePeriod` takes the creation date.

## Findings

| source | as written | input that shows it | evidently intended | confidence | as-written member | corrected member |
|---|---|---|---|---|---|---|
| Client/Frontend/Sync/BraveCore/History/Historyv2.swift:154 | `byFrequency` checks that `query` is non-empty, then searches with `withQuery: nil` | the queries "abc" and "xyz" send the same request, so every non-empty query returns the same 200 most recent entries | search for `query`, as `HistoryAPI.swift:47` does | medium, not executed | History.ByFrequencyIgnoresQuery | History.ByFrequencyRequestDistinguishesQueries |
