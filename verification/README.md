# moviePlay: sort toggle, profile names and favourites reducer

This project models the three pieces of logic in the moviePlay mobile client
that can be stated exactly, and proves properties about them:

- **Sort-order button** (`SortOrder`, `sort_order.dfy`). The parent screen holds
  a numeric order: 1 = by date, 2 = by rating, 3 = both. Each press of the
  button advances it, with 3 wrapping back to 1. The button shows one icon per
  order, and the `"filter"` icon for any other number.
- **Profile editor names** (`Names`, `names.dfy`; `EditProfile`,
  `edit_profile.dfy`). The user's display name is split at spaces. The first
  piece becomes the first name. The remaining pieces, rejoined with spaces,
  become the last name. On save, the full name is rebuilt as first name, one
  space, last name. The model covers JavaScript's `split` and `join` on a
  one-character separator and proves that split and join are inverse to each
  other.
- **Favourites screen** (`Favourites`, `favourites.dfy`). A reducer over
  `(movies, loading, page)` driven by two events: the screen gaining focus,
  and the outcome of a favourites request for a page. The possible outcomes
  are results, no results, a 403, or another error. The HTTP reply is an
  input. A pure `View` chooses between the spinner, the "no favourites"
  screen and the list.

The code in `fetchFavorites` re-requests the same page after every 403, with no
bound. Each 403 is therefore one event that changes nothing and issues a
request for the same page.

One consequence is proved rather than assumed: the favourites screen only
ever requests page 1. Its page counter is written but never used to make a
request, so, starting from the initial state, it stays at 1 or 2
(`OnlyFirstPageRequested`, `PageNeverPastTwo`). In JavaScript an empty
`results` array is truthy. So a reply carrying `results: []` still advances
the page counter and is modelled as `Results([])`, not as `NoResults`.

## Model

| member | source | states |
|---|---|---|
| SortOrder.Toggle | app/ui/components/ActionButtons.tsx:14-21 | a press always changes the order, and an order on the cycle {1,2,3} goes to an order on the cycle |
| SortOrder.ToggleIsSuccessor | app/ui/components/ActionButtons.tsx:15-20 | on the cycle a press is the successor modulo three, so 3 (both) goes to 1 (date); off the cycle it adds one |
| SortOrder.PressesOnCycle | app/ui/components/ActionButtons.tsx:14-21 | from an order on the cycle, n presses stay on the cycle and land at (s - 1 + n) mod 3 + 1 |
| SortOrder.PeriodThree | app/ui/components/ActionButtons.tsx:14-21 | three presses restore any order on the cycle, and one or two presses never do |
| SortOrder.AboveCycleEscapes | app/ui/components/ActionButtons.tsx:18-20 | a value of 4 or more is only ever incremented, n presses give s + n, and it never re-enters {1,2,3} |
| SortOrder.BelowCycleEnters | app/ui/components/ActionButtons.tsx:15-20 | a value of 0 or less climbs by one per press and first enters the cycle, at 1, after exactly 1 - s presses (0 enters at 1 after one press) |
| SortOrder.Icon | app/ui/components/ActionButtons.tsx:23-34 | the icon is "filter" exactly for values outside {1,2,3} |
| SortOrder.IconDistinguishesOrders | app/ui/components/ActionButtons.tsx:24-30 | the three orders have three pairwise different icons |
| Names.Split | app/ui/screens/EditProfile.tsx:13 | `split(' ')` yields at least one piece, and no piece contains the separator |
| Names.JoinSplit | app/ui/screens/EditProfile.tsx:13-15 | joining the pieces of a split with the same separator gives back the string exactly, consecutive separators included |
| Names.Join | app/ui/screens/EditProfile.tsx:15 | `join(' ')` of no pieces is the empty string, and a join is at least as long as its first piece plus one separator per further piece |
| Names.JoinSeparators | app/ui/screens/EditProfile.tsx:15 | a join starts with its first piece; of separator-free pieces it contains the separator exactly when there are two pieces or more |
| Names.SplitRest | app/ui/screens/EditProfile.tsx:13-15 | the pieces after the first, rejoined with the separator, are exactly the text after the first separator |
| Names.SplitJoin | app/ui/screens/EditProfile.tsx:13-15 | splitting a join of one or more separator-free pieces gives back the pieces |
| EditProfile.OrEmpty | app/ui/screens/EditProfile.tsx:12 | a missing value becomes the empty string, and a present one is kept |
| EditProfile.DisplayName | app/ui/screens/EditProfile.tsx:12 | the display name is the user's, or the empty string when the user or the display name is missing |
| EditProfile.NameParts | app/ui/screens/EditProfile.tsx:12-15 | the first name is the text before the first space, or the whole name when there is none; the last name is the text after the first space, with its spacing kept exactly, or empty when there is no space |
| EditProfile.InitialForm | app/ui/screens/EditProfile.tsx:12-17 | the initial fields are the name parts of the display name; a missing user or display name gives empty first and last names; the nick is the user's `nick` property, or empty when missing |
| EditProfile.ApplyEdit | app/ui/screens/EditProfile.tsx:59-86 | typing into a field replaces that field only, and the other two are unchanged |
| EditProfile.EditsReachPayload | app/ui/screens/EditProfile.tsx:14-33 | a nick edit leaves the saved full name alone and sends the typed nick; a name edit leaves nick, email and googleId alone; when the saved full name is split again, a typed last name comes back when the first name has no space, and a typed first name without a space comes back |
| EditProfile.UpdatePayload | app/ui/screens/EditProfile.tsx:24-33 | the full name is the first name, one space, then the last name; the nick is the field's value; googleId is present exactly when a user is, and the image is absent without a user; the email is the user's email, or empty when missing |
| EditProfile.NamePartsRejoin | app/ui/screens/EditProfile.tsx:13-30 | the two name parts joined by one space give back the display name when it has a space, and the display name plus one trailing space otherwise |
| EditProfile.UneditedNameRoundTrip | app/ui/screens/EditProfile.tsx:12-30 | saving unedited names sends the display name back exactly when it contains a space; without a space it gains one trailing space |
| EditProfile.SavedNamesReopen | app/ui/screens/EditProfile.tsx:13-30 | a saved full name, split again, gives back the first and last name fields exactly when the first name has no space |
| Favourites.OnFocus | app/ui/screens/Favourites.tsx:37-41 | focus empties the list, sets loading, resets the page to 1 and requests page 1 |
| Favourites.OnResponse | app/ui/screens/Favourites.tsx:48-79 | results are appended after the list in order and set the page to n + 1; a 403 changes nothing and re-requests page n; no results or any other error end loading and keep the list and page |
| Favourites.Request | app/ui/screens/Favourites.tsx:37-73 | a request is made exactly on focus (for page 1, line 41) and on a 403 (for the same page again, line 73) |
| Favourites.Step | app/ui/screens/Favourites.tsx:36-79 | the request a step makes depends only on the event (page 1 on focus, the same page on a 403, none otherwise), and a focus puts the screen back in its mount state whatever it showed |
| Favourites.View | app/ui/screens/Favourites.tsx:106-124 | the spinner shows exactly while loading; the "no favourites" screen shows exactly when not loading with an empty list; otherwise the list is shown with the movies in state order |
| Favourites.FocusFreeAppends | app/ui/screens/Favourites.tsx:62-77 | with no focus event, the list is the earlier list followed by the results of every successful reply, in arrival order |
| Favourites.MoviesSinceFocus | app/ui/screens/Favourites.tsx:37-64 | after a focus followed only by replies, the list is exactly what those replies delivered, and nothing from before the focus survives |
| Favourites.ListOnlyGrows | app/ui/screens/Favourites.tsx:62-63 | without a focus event the earlier list stays a prefix and the length never decreases |
| Favourites.SpinnerWhileRetrying | app/ui/screens/Favourites.tsx:37-73 | after focus, the spinner stays up with an empty list and page 1 for as long as every reply is a 403 |
| Favourites.OnlyFirstPageRequested | app/ui/screens/Favourites.tsx:36-79 | when replies answer earlier requests, every request the screen makes is for page 1 |
| Favourites.PageNeverPastTwo | app/ui/screens/Favourites.tsx:30-64 | from the initial state, when replies answer earlier requests, the page counter stays 1 or 2 |

## Left out

- Network, storage and SDK calls: the favourites request, the `AsyncStorage` token read, `getNewTokens`, and the `axios.put` of the profile update. A reply is an input event. The token refresh is folded into the 403 event. The update request's status and errors only produce log lines, which are not modelled.
- The 403 retry loop: each 403 is one event. Nothing is claimed about termination, because the code retries without a bound.
- React scheduling: `setState` calls are applied in order within one event. Replies can arrive in any order, including after a later focus, and the reducer accepts that.
- SortOrder.Toggle: the order is an unbounded `int`. The source holds a JavaScript number. Fractional values, NaN and ±Infinity are not modelled. Neither is the loss of integer precision at magnitude 2^53 and above. For NaN and the infinities, and at magnitude 2^53 and above for some values (2^53 and -2^54 among them), `isOrdered + 1` equals `isOrdered`. A press then does not change the value, which the contract `r != s` does not cover.
- SortOrder.AboveCycleEscapes: `Presses(s, n) == s + n` holds for the unbounded integers of the model. A JavaScript number stops growing once `isOrdered + 1` rounds back to itself, which first happens at 2^53.
- SortOrder.BelowCycleEnters: `Presses(s, n) == s + n` and the entry into the cycle after exactly `1 - s` presses hold for the unbounded integers of the model. A JavaScript number at magnitude 2^53 and above can have `isOrdered + 1` round back to itself, -2^54 for example, and then never reaches 1.
- Favourites.Movie: the rating is a `real`, not a floating-point number. The release year from JavaScript date parsing, the genre join and the image are not modelled. They are only displayed.
- EditProfile.InitialForm: the signed-in user is a Firebase user, which has no `nick` and no `image` property. So at run time the initial nick is always the empty string, and the payload's `image` (EditProfile.UpdatePayload) is always absent. The model keeps both as optional fields, so it also covers a user record that carries them.
- The user record is cut down to the fields the editor's logic reads (`uid`, `displayName`, `nick`, `email`, `image`). The editor also reads `photoURL`, but only to display the profile picture, so it is not modelled. The profile photo tap only logs, and the Cancel button only navigates; neither is modelled.
- Token refresh and sign-out (app/navigation/RefreshToken.tsx), login screens, the application shell, Recents, MovieDetail, GenreScroll and the purely presentational screens are not part of this model. They are SDK/HTTP wrappers or rendering. GenreScroll's page update also depends on closure timing.
