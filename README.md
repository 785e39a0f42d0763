# Destination detail screen: selection and pricing

A Dafny model of the state machine behind the destination detail screen
(`GambiaDetailScreen`) of a small React Native tourism app. The screen shows
a fixed catalog of three destinations as cards. Tapping a card selects it:
the selected card's description panel is animated open (target 1), every
other panel is animated closed (target 0), and the selected destination's
unit price becomes the price used at checkout. A plus and a minus button
adjust a purchase quantity that never drops below 1, and the total shown is
unit price times quantity.

The model lives in `tourism.dfy` (module `TourismApp`); `wrappers.dfy` holds
the `Option` type used for the nullable selection and for catalog lookups.

- `Destination`, `Catalog()` and `ValidCatalog` give the catalog and its
  invariant: non-empty, distinct ids, positive prices.
- `DetailScreen` is a class with the screen's state as fields:
  `selectedId` (`Option<int>`, since the source's state is `number | null`),
  `selectedPrice`, `quantity`, and `animTarget`, a map from card id to the
  value that card's animation is heading to. `catalog` is a `const`.
- The constructor is the first render. It builds the initial animation map
  by a loop over the catalog, as the `reduce` in the source does.
- `Select` is the card tap handler. `Inc` and `Dec` are the button handlers;
  they apply the pure updaters `IncQ` and `DecQ`.
- `SyncEffect` is the selection effect. A loop retargets every card, then it
  looks the selection up with `Find` and copies that entry's price.
- `Total()` is the derived amount, `Amount(selectedPrice, quantity)`. It is
  a function and is never stored.
- `Press(e)` is one user event followed by the render it causes: the
  handler, then the effect. The effect depends on the `destinations` array,
  which the component rebuilds on every render. So in the source the effect
  runs after every render, including those caused by the quantity buttons,
  not only after a selection change. `Press` models it that way.
- `Steady()` is the state between events: valid, synced, and a catalog
  entry selected. The constructor establishes it and `Press` keeps it. In a
  steady state exactly the selected id has target 1, and the price is that
  entry's catalog price.

Both loops are proved against the recursive specification `Targets`, which
assigns each catalog id its target in catalog order. `TargetsAt` then gives
the pointwise meaning of `Targets`.

The initial selection is the literal id `1` (PROJECTS/tourismApp.tsx:74),
while the initial price is read from `destinations[0]` (line 75); for this
catalog both name the same entry. The cards are retargeted by the effect
after the render (lines 86-102), not by the tap handler, so between `Select`
and `SyncEffect` the targets still describe the previous selection.

## Model

| member | source | states |
|---|---|---|
| `TourismApp.Catalog` | PROJECTS/tourismApp.tsx:44-72 | The catalog holds three entries with ids 1, 2, 3. It is non-empty, its ids are distinct and every price is positive. |
| `TourismApp.FindFrom` | PROJECTS/tourismApp.tsx:98 | The result is the first index at or after `k` whose id equals the selection, or none when no later entry matches. |
| `TourismApp.Find` | PROJECTS/tourismApp.tsx:98 | An entry is found exactly when the selection is non-null and is a catalog id. The entry found is in the catalog and carries the selected id. |
| `TourismApp.FindEntry` | PROJECTS/tourismApp.tsx:98-101 | With distinct ids, looking up any entry's id returns that entry, so its price is the one re-synced. |
| `TourismApp.TargetFor` | PROJECTS/tourismApp.tsx:81 | A card's target is 0 or 1, and it is 1 exactly when its id is the selected one (the ternary at lines 81 and 89). |
| `TourismApp.Targets` | PROJECTS/tourismApp.tsx:80-83 | The per-id targets that visiting the catalog in order produces, the value both the mount `reduce` (lines 80-83) and the effect's `forEach` (lines 88-96) are proved to build. It has no contract of its own; `TargetsAt` gives its meaning. |
| `TourismApp.TargetsAt` | PROJECTS/tourismApp.tsx:88-96 | After the card loop, every catalog id has a target and no other key does. A card's target is 1 iff its id equals the selection, and 0 otherwise. |
| `TourismApp.TargetsBinary` | PROJECTS/tourismApp.tsx:89 | Every animation target is 0 or 1. |
| `TourismApp.RaisedIsSelection` | PROJECTS/tourismApp.tsx:88-96 | The set of ids with target 1 is exactly the selected id when it is a catalog id, and empty otherwise. |
| `TourismApp.OneCardRaised` | PROJECTS/tourismApp.tsx:88-96 | With distinct ids, the selected entry's card has target 1 and every other card has target 0. |
| `TourismApp.IncQ` | PROJECTS/tourismApp.tsx:112 | The increment updater always raises the quantity. It has no upper bound. |
| `TourismApp.DecQ` | PROJECTS/tourismApp.tsx:115 | The decrement updater never goes below 1 and moves at most one step down. It never raises a positive quantity, and it leaves a quantity unchanged only at 1. |
| `TourismApp.DecLaw` | PROJECTS/tourismApp.tsx:115 | Floor law: decrementing from 1 stays at 1, and from n > 1 gives n - 1. |
| `TourismApp.IncDecRoundTrip` | PROJECTS/tourismApp.tsx:111-116 | An increment followed by a decrement restores any quantity that is at least 1. |
| `TourismApp.Amount` | PROJECTS/tourismApp.tsx:104 | The total is 0 at quantity 0, and each extra unit adds one unit price. |
| `TourismApp.DetailScreen.constructor` | PROJECTS/tourismApp.tsx:74-84 | The initial state selects id 1 at price 5000 with quantity 1. The initial animation map gives id 1 the value 1 and ids 2 and 3 the value 0. The state is steady. |
| `TourismApp.DetailScreen.Select` | PROJECTS/tourismApp.tsx:106-109 | The selection becomes `id` whether or not it already was, and the price becomes `price`. Quantity and animation targets are unchanged. |
| `TourismApp.DetailScreen.SyncEffect` | PROJECTS/tourismApp.tsx:86-102 | Every card's target is 1 iff it is the selected one. The price becomes the selected entry's catalog price when there is one, and is otherwise unchanged. Selection and quantity are unchanged. Re-running the effect on a synced state changes nothing. |
| `TourismApp.DetailScreen.Inc` | PROJECTS/tourismApp.tsx:111-113 | The quantity becomes one more, and the total grows by the unit price. The selection, price and targets are unchanged. |
| `TourismApp.DetailScreen.Dec` | PROJECTS/tourismApp.tsx:114-116 | The quantity becomes one less, but never less than 1. The total drops by the unit price, except at 1 where it is unchanged. The selection, price and targets are unchanged. The quantity stays at least 1. |
| `TourismApp.DetailScreen.Press` | PROJECTS/tourismApp.tsx:86-116 | After any event and its render, the state is steady. Exactly the selected id has target 1, and the price is the selected entry's catalog price. A tap selects that card at its catalog price and keeps the quantity. Plus and minus change only the quantity. |
| `TourismApp.Walkthrough` | PROJECTS/tourismApp.tsx:74-116 | Mount, tap the second card, press plus twice, then minus once. The total reads 5000, then 4000, then 12000, then 8000. |

## Left out

- Animation mechanics: the 320 ms duration, the cubic ease-out curve and the
  concurrently running, clock-driven float progress are not modelled. Each
  card's animation is represented only by its target, 0 or 1. The
  height and opacity interpolation of the panels is presentation.
- Rendering: the JSX layout, styles, gradients, images and the root `App`
  wrapper with its status-bar theming.
- Display formatting: `toLocaleString()` of prices and totals depends on the
  locale.
- The "Book Now" confirmation alert: a UI side effect with fixed strings and
  no state change.
- The `name`, `rating`, `image` and `description` fields of a destination:
  they are informational and take no part in selection or pricing.
- Number representation: JavaScript numbers are doubles. The model uses
  unbounded integers, so the loss of precision of `price * quantity` beyond
  2^53 is not modelled.
- React scheduling: each state setter takes effect before the next event,
  and the effect runs once per event, right after its handler. The
  re-evaluation of the `reduce` on later renders, whose result `useRef`
  discards, is not modelled. The effect run after the mount render is not
  modelled either: the constructor already establishes `Synced()`, and
  `SyncEffect` changes nothing on a synced state.
- The other screens (the home screen, the introduction screen, the root
  component) hold no state logic and are not part of this model.
- `DetailScreen.Total`: it carries no contract of its own. What the source
  promises about it, that it is price times quantity and that it follows
  each button press, is stated by `Amount`, `Inc`, `Dec` and `Walkthrough`.
