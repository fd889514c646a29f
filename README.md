# jtrie: a path-addressed JSON trie, in Dafny

The Go package `jtrie` defines `JsonTrie`, a `map[string]interface{}` whose
values are either leaves or further maps, and three methods that walk it by a
sequence of string keys:

- `Get(path...)` descends while the cursor is a map. It returns the value
  reached and `true`, or `(nil, false)` as soon as the cursor is anything else.
- `Set(value, path...)` descends to the map that holds the last key. On the
  way it replaces every intermediate entry that is missing or not a map with a
  fresh empty map. It then assigns `value` at the last key.
- `Delete(path...)` descends through maps and removes the last key. It stops
  without a change when an intermediate entry is not a map.

The model has two modules.

- `TrieSpec` (`trie_spec.dfy`) gives the trie as a value,
  `datatype Value = Leaf(s: string) | Obj(m: map<string, Value>)`. An absent key
  plays the role of Go's `nil`. It defines the meaning of the three operations
  as recursive functions: `Lookup` (through `Walk`), `Assign` and `Remove`. It
  adds an independent notion of "a value is stored at this path" (`Present`,
  `At`) and proves what the operations promise about it.
- `JTrie` (`trie.dfy`) has the class `JsonTrie`, whose field `root` is the
  trie. `Get`, `Set` and `Delete` are methods with the Go code's loop over the
  path and its cursor. Each is proved equal to the matching `TrieSpec`
  function. The two map types of the Go code (`JsonTrie` and
  `map[string]interface{}`) are handled alike in every type switch, so the
  model has one `Obj` case for both.

Go's inner maps are shared references, so writing through the cursor updates
the whole trie. In the model the trie is a value. `Set` and `Delete` therefore
keep the maps they pass on the way down and write the changed map back into
its parents after the last key (`WriteBack`). The final trie is the same.

`Delete` has no result in the code: a path that leads nowhere is silently
ignored.

## Model

| member | source | states |
|---|---|---|
| `TrieSpec.Walk` | trie.go:9-19 | a walk that stops early never carries a value: `found == false` implies the value is nil |
| `TrieSpec.Lookup` | trie.go:7-20 | `Get` with an empty path returns the root trie itself with `true`; a failed `Get` returns nil |
| `TrieSpec.WalkAppend` | trie.go:9-18 | walking `p + q` is walking `p` and then, if that succeeded, walking `q` from where it stopped |
| `TrieSpec.LookupBlocked` | trie.go:15-16 | once the cursor is not a map (a leaf, a missing key or an earlier failure), any longer path gives `(nil, false)` |
| `TrieSpec.LookupFailsIff` | trie.go:9-19 | `Get` reports `false` exactly when, before some key of the path, the cursor is not a map |
| `TrieSpec.LookupPresent` | trie.go:9-19 | for a non-empty path, `Get` returns a value exactly when every key is present and every intermediate value is a map; it is then the stored value, with `true` |
| `TrieSpec.Assign` | trie.go:22-39 | the trie `Set` leaves: with an empty path nothing changes; otherwise the root gains at most the first key and keeps every other entry. Its deeper properties are proved in `AssignThenLookup`, `AssignIntermediate`, `AssignPreservesOthers` and `AssignIdempotent` |
| `TrieSpec.AssignThenLookup` | trie.go:22-38 | after `Set(v, path)` with a non-empty path, `Get(path)` returns `(v, true)`, whatever the trie held before |
| `TrieSpec.AssignIntermediate` | trie.go:29-36 | every map on the path is still a map after `Set`; an existing one keeps all entries but the next key's; a leaf or missing entry becomes a map holding only the next key |
| `TrieSpec.AssignPreservesOthers` | trie.go:29-36 | a path that branches away from the path of `Set` holds the same value before and after (both directions) |
| `TrieSpec.AssignIdempotent` | trie.go:22-39 | doing the same `Set` twice gives the same trie as doing it once |
| `TrieSpec.Remove` | trie.go:41-57 | `Delete` never adds a key, and at the root it changes no entry except the one under the first key |
| `TrieSpec.RemoveUnchangedIff` | trie.go:41-57 | `Delete` leaves the trie unchanged exactly when no value is stored at the path (empty path, non-map intermediate, missing final key); otherwise the value is gone |
| `TrieSpec.RemoveFinalKey` | trie.go:44-46 | `Delete` removes exactly the last key from the map the path leads to; its siblings stay, and the map stays in place even when it becomes empty |
| `TrieSpec.RemovePreservesOthers` | trie.go:48-55 | a path that branches away from the path of `Delete` gives the same `Get` result before and after |
| `TrieSpec.RemoveThenLookup` | trie.go:41-57 | after `Delete(path)`, `Get(path)` returns nil, with `true` exactly when the path without its last key leads to a map |
| `TrieSpec.WalkStrict` | trie_test.go:77-83 | the walk the tests expect reports `true` exactly when it returns a value |
| `TrieSpec.LookupStrict` | trie_test.go:55-97 | `Get` as the tests expect it: empty path gives the root; `true` exactly when a value is returned |
| `TrieSpec.LookupStrictAgrees` | trie.go:12-19 | the code's `Get` and the expected one agree wherever the code returns a value, and differ only where the code returns `(nil, true)` |
| `TrieSpec.LookupStrictPresent` | trie_test.go:55-97 | the expected `Get` reports `true` for a non-empty path exactly when a value is stored there, and returns that value |
| `TrieSpec.LookupMissingFinalKey` | trie.go:12-19 | when the walk reaches a map that lacks the last key, the code's `Get` returns `(nil, true)` and the expected one `(nil, false)` |
| `TrieSpec.GetNonExistentCase` | trie_test.go:77-83 | on `{"key1": "value1"}` with path `["key2"]` the code answers `(nil, true)` where the test expects `found == false` |
| `TrieSpec.AssignThenLookupStrict` | trie.go:22-38 | the `Set`-then-`Get` round trip also holds for the expected `Get` |
| `TrieSpec.RemoveThenLookupStrict` | trie.go:41-57 | with the expected `Get`, a deleted path is reported as not found |
| `JTrie.JsonTrie.constructor` | trie.go:5 | a trie over a given map holds exactly that map |
| `JTrie.JsonTrie.Get` | trie.go:7-20 | the loop over the path returns exactly `Lookup(root, path)`; an empty path gives the root with `true` |
| `JTrie.JsonTrie.Set` | trie.go:22-39 | the loop over the path, with its in-place writes, leaves `root == Assign(old(root), path, value)` |
| `JTrie.JsonTrie.Delete` | trie.go:41-57 | the loop over the path, with its early return, leaves `root == Remove(old(root), path)` |

## Findings

| source | as written | input that shows it | evidently intended | confidence | as-written member | corrected member |
|---|---|---|---|---|---|---|
| trie.go:12-19 | a key missing from a map the walk has reached makes the cursor nil, the loop ends, and `Get` returns `(nil, true)` | `Get("key2")` on `{"key1": "value1"}` returns `(nil, true)`; trie_test.go:77-83 expects `found == false` | `found` is `true` only when a value is stored at the path | high; not executed | `TrieSpec.LookupMissingFinalKey` | `TrieSpec.LookupStrict` |

The class keeps the code's behaviour in `JTrie.JsonTrie.Get`, because the
code is what callers of the Go type get. `LookupStrict` is the version the
tests expect. `LookupStrictAgrees` states exactly where the two differ. The
`Set` round trip and the `Delete` property are proved for both versions.

## Left out

- `MarshalJSON` (trie.go:59-61) is not modelled. It only hands the map to Go's `encoding/json`, whose key order and escaping are not part of this package.
- Leaves are modelled as strings. The code never looks inside a non-map value (numbers, booleans, arrays and the rest all take the `default` branch), so one `Leaf` case covers them all.
- A key stored with an explicit `nil` value is not modelled apart from an absent key. `Get`, `Set` and `Delete` treat the two alike; only the key set and the JSON text differ.
- A nil map is not modelled: a nil `JsonTrie`, or a nil map stored as a value. Only `Set` panics on it, because it assigns into the map; `Get` and `Delete` treat it as an empty map.
- Aliasing is not modelled. Inner maps may be shared with the caller, and a map given to `Set` may still be held by the caller. The model owns the trie as a value and cannot form a cycle.
- Concurrent use is not modelled. The Go type has no locking.
