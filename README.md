# rssproxy: item-count truncation of a proxied RSS feed

rssproxy fetches an RSS feed, parses it into an element tree, trims the
feed's `channel` to a bounded number of `item` elements, and serves the
re-serialised document. This project models the trimming step of `proxy`
in `app.py` and proves what it does to the tree.

The parsed document is a tree of `ElementTree.Element` objects. Each has a
tag fixed at parse time and a child list that can be edited in place.
`Truncation.TruncateItems` takes the root's first child (the `channel`).
`Truncation.TruncateChildren` is the loop of `proxy` over that child's
children. It keeps a running count of children tagged exactly `"item"`. It
deletes an item in place (`Element.DeleteChild`, i.e. `del root[0][i]`) when
the count, incremented before the test, reaches `maxItems`. The index
advances only when nothing was deleted.

`Truncation.Truncated` is a pure reference definition of the resulting child
list: a recursive filter that carries the running count. The loop is
proved to leave exactly `Truncated(old children, maxItems)` in the channel.
The lemmas then state what that list is: which items survive, that nothing
else is lost, and that nothing is reordered.

The count is tested with `>=` after incrementing, so at most `maxItems - 1`
items survive; under the default `MAX_ITEMS = 50` that is 49. The model
keeps this behaviour exactly as the code has it. The limit is an unbounded
integer, as in Python, so a zero or negative limit is handled: every item is
removed.

When the root has no child, `root[0]` raises an index error in the source.
The model returns `Outcome.NoChannel` and changes nothing.

## Model

| member | source | states |
|---|---|---|
| Truncation.TruncateItems | app.py:33-50 | With `maxItems` defaulting to `MAX_ITEMS`: returns `NoChannel` exactly when the root has no child (the index error of `root[0]`). Otherwise the channel's child list becomes `Truncated(old list, maxItems)`. The root is unchanged, and only the channel object may be modified. |
| Truncation.TruncateChildren | app.py:40-50 | The in-place loop leaves the channel's child list equal to `Truncated(old list, maxItems)`. The loop terminates because `len(children) - i` decreases on every pass: either `i` grows or the list shrinks. |
| ElementTree.Element.DeleteChild | app.py:46 | `del e[i]`: the child list loses exactly position `i`; earlier children stay in place and later ones shift down by one. |
| Truncation.KeepsFirstItems | app.py:43-48 | The items that survive are exactly the first `min(n, max(maxItems - 1, 0))` items of the original list, in document order, where `n` is the original item count. |
| Truncation.ItemCountAfterTruncation | app.py:43-46 | The surviving item count equals `min(original item count, max(maxItems - 1, 0))`. |
| Truncation.KeepsNonItems | app.py:49-50 | Every child whose tag is not exactly `"item"` survives, in its original relative order. |
| Truncation.TruncatedIsSubsequence | app.py:42-50 | The result is an order-preserving subsequence of the original child list: nothing is added or reordered. |
| Truncation.UnchangedBelowLimit | app.py:45-48 | If the original item count is below `maxItems`, the child list is unchanged. |
| Truncation.DropsAllItems | app.py:44-46 | If `maxItems <= 1`, every item is removed and exactly the non-item children remain, in order. |
| Truncation.CutAtBoundary | app.py:42-50 | The result is the original list kept whole up to just before its `maxItems`-th item, followed by only the non-items after that point. The kept prefix holds `min(n, max(maxItems - 1, 0))` items. |
| Truncation.DefaultLimitKeepsAtMost49 | app.py:33-46 | Under the default limit at most 49 items survive, and exactly 49 when the feed has at least 49. |
| Truncation.KeepsFirstItemsFrom | app.py:43-48 | Mid-loop form of KeepsFirstItems: after `seen` items have been counted, the rest of the list keeps its first `max(maxItems - 1 - seen, 0)` items. |
| Truncation.KeepsNonItemsFrom | app.py:49-50 | Mid-loop form of KeepsNonItems, for any count already seen. |
| Truncation.IsSubsequenceFrom | app.py:42-50 | Mid-loop form of TruncatedIsSubsequence, for any count already seen. |
| Truncation.UnchangedBelowLimitFrom | app.py:45-48 | Mid-loop form of UnchangedBelowLimit: the rest is untouched when `seen` plus its item count stays below `maxItems`. |
| Truncation.DropsAllItemsFrom | app.py:44-46 | Once `seen + 1 >= maxItems`, every later item is removed and every later non-item kept. |
| Truncation.CutAtBoundaryFrom | app.py:42-50 | Mid-loop form of CutAtBoundary, for any count already seen. |

## Left out

- Fetching the feed (`requests.get`, the status code and response text, app.py:35-37) is network I/O. The model starts from the parsed tree.
- Parsing and serialising (`ET.fromstring`, `ET.tostring`, app.py:38 and 53) are calls into the XML library. The tree is modelled abstractly: each element has a tag and an ordered child list. Text, tail and attributes are not modelled, because the truncation never reads them.
- The Flask `Response`, the `/verge`, `/daily` and `/healthz` routes and the app construction (app.py:29, 55-67) are HTTP plumbing with fixed URLs. The two feed routes only call `proxy` with the default limit, which `DefaultLimitKeepsAtMost49` covers.
- Prometheus metrics, gunicorn detection, logging setup and the `print` call (app.py:14-31, 36) are environment and observability plumbing.
- Truncation.TruncateItems: requires that the channel is not the root itself. A parsed tree is acyclic, so this always holds for documents the parser produces.
- Namespaced tags such as `{ns}item` are not items, because the source compares the tag with `"item"` exactly. The model does the same and adds no namespace handling.
