# eBuy storefront state, in Dafny

This project models the state transitions of the eBuy React storefront that
hold its logic. These are:

- the chat provider (rooms, messages, unread counts) and the chat widget;
- the two cart providers and the two favourites providers, with the local
  storage key and load each one uses;
- the product edit and new-listing forms;
- the home page product grid, the product page, the account page and the
  profile image uploader.

Each handler is a pure function from the state it reads to the state it
sets. Every server call or browser service a handler awaits enters the model
as its settled result, passed as a parameter. This covers `fetch`, the chat
API, `FileReader`, `URL.createObjectURL`, `Date.now`, `Math.random`, the
signed-in user and `JSON.parse`. Exceptions are error values (`Reply.Failed`,
`...Threw`).

Modules, by file:

- `transport.dfy`: `Option` and `Reply`, the shape of a settled call.
- `lists.dfy`: JavaScript's `filter`, `reduce` sum and `slice(0, end)`.
- `keyed.dfy`: lists keyed by an id. It covers remove-by-id, add-if-absent,
  toggle and update-by-id, and proves their uniqueness and sum facts.
- `text.dfy`: `trim`, `startsWith`, decimal rendering of integers,
  `parseFloat`'s acceptance test and `x || fallback`.
- `files.dfy`: the uploaded `File`, the six-photo cap and the 5 MiB limit.
- `chat_api.dfy`, `room_order.dfy`, `chat_provider.dfy`: `ChatProvider`.
  `room_order.dfy` holds the stable newest-first room sort.
- `chat_ui.dfy`: the `ChatUI` widget.
- `persisted.dfy`, `cart_lines.dfy`, `cart.dfy`, `merging_cart.dfy`,
  `favorites.dfy`: the cart and favourites providers.
- `edit_product.dfy`, `sell.dfy`: `EditProduct` and `Sell`.
- `product_grid.dfy`: `Defualt`, the home grid.
- `product_detail.dfy`: `ProductDetail`.
- `profile.dfy`, `profile_image.dfy`: `Profile` and `ProfileImageUpload`.

Behaviour of the code that the model keeps as written:

- `markAsRead` takes the unread total from a second server call. It does not
  subtract the room's count locally. `ChatStore.MarkAsReadCanLeaveStaleTotal`
  shows the two can disagree.
- A failed `loadUserRooms` clears the room list and the unread total.
- Neither `createOrGetRoom` nor `sendMessageToRoom` checks for a room with
  oneself or for empty content.

## Model

| member | source | states |
|---|---|---|
| ChatStore.Initial | context/chatcontext/ChatProvider.tsx:23-27 | The provider starts with no rooms, no messages, no selected room, no unread messages, and the total agrees with the rooms. |
| ChatStore.CreateOrGetRoom | context/chatcontext/ChatProvider.tsx:32-53 | A returned room is listed afterwards and is put at the front only if its id is new. A failure yields no room and leaves the rooms unchanged. Loading ends either way. |
| ChatStore.CreateOrGetRoomIdempotent | context/chatcontext/ChatProvider.tsx:38-44 | Creating or getting the same room twice is the same as doing it once. |
| ChatStore.CreateOrGetRoomKeepsIdsUnique | context/chatcontext/ChatProvider.tsx:38-44 | The de-duplication keeps room ids unique. |
| ChatStore.LoadUserRooms | context/chatcontext/ChatProvider.tsx:55-75 | A successful load shows the server's rooms and sets the total to the sum of their unread counts. Any failure clears both. Selection and messages are untouched. |
| ChatStore.LoadUserRoomsTotalNonNegative | context/chatcontext/ChatProvider.tsx:61-66 | Rooms with non-negative unread counts give a non-negative total. |
| ChatStore.Annotate | context/chatcontext/ChatProvider.tsx:83-86 | Each message is kept field for field and marked as own exactly when the signed-in user sent it. |
| ChatStore.AnnotateIdempotent | context/chatcontext/ChatProvider.tsx:83-86 | Marking messages again changes nothing. |
| ChatStore.LoadRoomMessages | context/chatcontext/ChatProvider.tsx:77-94 | A successful load replaces the messages with the marked server messages, one for one. A failure keeps the old messages. |
| ChatStore.WithLastMessage | context/chatcontext/ChatProvider.tsx:109-118 | The sent message becomes the room's last message, last-message time and update time. Every other field of the room, such as its id, participants, name and unread count, is kept. |
| ChatStore.SendMessageToRoom | context/chatcontext/ChatProvider.tsx:96-127 | A sent message is appended last, marked as own exactly when the signed-in user sent it. The rooms are the summarised rooms, newest first, as a permutation. A failure is rethrown with the state unchanged. |
| ChatStore.SendUpdatesOnlyTargetRoom | context/chatcontext/ChatProvider.tsx:109-121 | After a send, every other room is present unchanged and the target room carries the message. No other room appears. |
| ChatStore.SendKeepsUnreadAgreement | context/chatcontext/ChatProvider.tsx:96-127 | Sending keeps the unread total equal to the sum of the rooms' unread counts. |
| ChatStore.SentRoomComesFirst | context/chatcontext/ChatProvider.tsx:109-121 | If every other room is older than the new message, the room sent to ends up first. |
| ChatStore.MarkAsRead | context/chatcontext/ChatProvider.tsx:129-150 | A failed read call changes nothing. Otherwise the room's unread count is zeroed, the other rooms are kept, and the total is the server's total, or the old total when that call fails. |
| ChatStore.MarkAsReadLocalSum | context/chatcontext/ChatProvider.tsx:134-141 | The old sum of unread counts equals the new sum plus the counts of the rooms that were cleared. |
| ChatStore.MarkAsReadCanLeaveStaleTotal | context/chatcontext/ChatProvider.tsx:134-145 | Taking the total from the server can disagree with the local room counts. |
| RoomOrder.Insert | context/chatcontext/ChatProvider.tsx:119-120 | Inserting into a newest-first list keeps it newest first and adds exactly the room. |
| RoomOrder.InsertIsStable | context/chatcontext/ChatProvider.tsx:119-120 | The inserted room goes after the rooms with the same update time, so equal times keep their order. |
| RoomOrder.InsertSum | context/chatcontext/ChatProvider.tsx:119-120 | Inserting adds the room's value to any sum over the rooms. |
| RoomOrder.SortNewestFirst | context/chatcontext/ChatProvider.tsx:119-120 | The sort is a permutation, newest first and stable: rooms with equal time keep their relative order. |
| RoomOrder.SortKeepsSum | context/chatcontext/ChatProvider.tsx:119-120 | Sorting keeps every sum over the rooms. |
| ChatUi.ClickMessageIcon | components/message/ChatUI.tsx:148-152 | The icon flips the contact list open or closed and changes nothing else. |
| ChatUi.ClickMessageIconTwice | components/message/ChatUI.tsx:148-152 | Two clicks restore the widget. |
| ChatUi.SelectUser | components/message/ChatUI.tsx:154-166 | The contact is selected and the list closes. The selected contact's unread count is cleared and the other contacts are kept. |
| ChatUi.SelectUserIdempotent | components/message/ChatUI.tsx:154-166 | Selecting the same contact twice is selecting once, and the set of contact ids never changes. |
| ChatUi.CloseConversation | components/message/ChatUI.tsx:231 | Closing the conversation only clears the selection. |
| ChatUi.CloseUserList | components/message/ChatUI.tsx:286 | Closing the list only hides it. |
| ChatUi.TypeDraft | components/message/ChatUI.tsx:265 | Typing only replaces the draft. |
| ChatUi.Bump | components/message/ChatUI.tsx:183-194 | The result holds exactly the contacts of the updated list, in which only the contact's entries changed, and only their last message and timestamp. Those entries move to the top and the others keep their order. |
| ChatUi.BumpCarriesText | components/message/ChatUI.tsx:183-187 | The bumped contact carries the sent text as its last message. |
| ChatUi.SendMessage | components/message/ChatUI.tsx:168-200 | With no contact selected or a blank draft, nothing changes. Otherwise the draft is appended as the user's message, the draft is cleared and the contact is bumped. |
| ChatUi.UntouchedKept | components/message/ChatUI.tsx:183-187 | Updating one contact leaves every other contact in place and unchanged. |
| Keyed.FilterUpdateOthers | components/message/ChatUI.tsx:183-187 | An update that keeps keys passes every element with another key through unchanged and in order. |
| ChatUi.BumpMovesContactToTop | components/message/ChatUI.tsx:183-194 | With unique ids, the first contact is the old contact with only its last message and timestamp changed, and the rest follow in their old order. |
| ChatUi.BumpAt | components/message/ChatUI.tsx:183-194 | With the contact's only entry at a known position, the list is that entry updated followed by the other contacts in order. |
| ChatUi.SendMessageMovesContactToTop | components/message/ChatUI.tsx:168-200 | Sending to a listed contact puts that contact first, changed only in its last message (the sent text) and timestamp `now`. |
| ChatUi.KeyPress | components/message/ChatUI.tsx:202-207 | Enter without Shift sends. Any other key changes nothing. |
| Persisted.StorageKey | context/cart/CartProvider.tsx:14-19 | A signed-in user's key is `<base>_user_` followed by the user's id in decimal. With no user or id 0 the key is `<base>_guest`. |
| Persisted.StorageKeysSeparateUsers | context/favorites/FavoritesProvider.tsx:14-19 | Different users never share a key, and no user shares the guest key. |
| Auth.UserIdOf | context/authcontext/AuthContext.ts:3-10 | The context as provided has no user, so reading its user id always gives nothing. |
| Persisted.StorageKeyAsWritten | context/cart/CartProvider.tsx:14-19 | With the user id read from the context as provided, every visitor gets the guest key. |
| Persisted.UsersShareKeyAsWritten | context/cart/CartProvider.tsx:14-19 | As written, any two sessions share the guest entry, while the keys of users 1 and 2 would differ. |
| Persisted.Restore | context/cart/CartProvider.tsx:22-36 | On a user change, stored text that parses is loaded. Unparsable text is dropped from storage and gives an empty list, and so does missing text. |
| Persisted.RestoreOnMount | context/othercontext/CartProvider.tsx:12-22 | On mount, stored text that parses is loaded. Unparsable text is dropped and the current list kept; missing text keeps it too. |
| Persisted.RestoreVariantsAgreeOnMount | context/othercontext/FavoritesProvider.tsx:12-22 | Both loads drop the stored entry exactly when it is present and unparsable, and they agree when starting empty. |
| CartLines.TotalItems | context/cart/CartProvider.tsx:81-83 | The number of units is non-negative, and for a valid cart it is at least the number of lines. |
| CartLines.RemoveFromCart | context/cart/CartProvider.tsx:60-62 | The product is gone and every other line stays. Removing an absent product changes nothing. |
| CartLines.RemoveFromCartKeepsOrder | context/cart/CartProvider.tsx:60-62 | In a valid cart, removal takes out exactly that line and keeps the others in order. |
| CartLines.RemoveFromCartKeepsValid | context/othercontext/CartProvider.tsx:47-49 | Removal keeps a valid cart valid and subtracts exactly that line's quantity. |
| CartLines.UpdateQuantity | context/cart/CartProvider.tsx:64-75 | A quantity of zero or less removes the product. Otherwise only that product's quantity changes. |
| CartLines.UpdateQuantityKeepsValid | context/othercontext/CartProvider.tsx:51-62 | An update keeps a valid cart valid and changes the unit count by exactly the difference. |
| CartLines.ClearCart | context/cart/CartProvider.tsx:77-79 | The cleared cart holds no product and no units. |
| UserCart.AddToCart | context/cart/CartProvider.tsx:44-58 | A new product is appended with quantity 1. A listed product leaves the cart unchanged. |
| UserCart.AddToCartKeepsValid | context/cart/CartProvider.tsx:44-58 | Adding keeps the cart valid and adds one unit exactly when the product is new. |
| UserCart.AddToCartIdempotent | context/cart/CartProvider.tsx:47-52 | Adding a product twice is adding it once. |
| MergingCart.AddToCart | context/othercontext/CartProvider.tsx:29-45 | A new product is appended with the given quantity. A listed product gets the quantity added to its line, and the other lines stay. |
| MergingCart.AddToCartCounts | context/othercontext/CartProvider.tsx:29-45 | Ids stay unique and the unit count rises by exactly the quantity. |
| MergingCart.AddToCartMerges | context/othercontext/CartProvider.tsx:33-39 | Two adds of one product equal one add of the summed quantity. |
| Favorites.IsFavorite | context/favorites/FavoritesProvider.tsx:58-60 | True exactly when some favourite has the id. |
| Favorites.AddToFavorites | context/favorites/FavoritesProvider.tsx:44-52 | A new favourite is appended. A listed id leaves the list unchanged. |
| Favorites.RemoveFromFavorites | context/othercontext/FavoritesProvider.tsx:39-41 | The id is no longer listed and every other favourite stays. |
| Favorites.RemoveFromFavoritesKeepsOrder | context/othercontext/FavoritesProvider.tsx:39-41 | With unique ids, removal takes out exactly that favourite and keeps the others in order. |
| Favorites.ToggleFavorite | context/favorites/FavoritesProvider.tsx:62-68 | The item's id flips between listed and not listed, and every other id keeps its status. |
| Favorites.ToggleFavoriteIsRemoveOrAdd | context/othercontext/FavoritesProvider.tsx:43-51 | A toggle removes the item when it is listed and adds it otherwise. |
| Favorites.ToggleFavoriteTwice | context/othercontext/FavoritesProvider.tsx:43-51 | Toggling twice restores the list, exactly so when the item was not listed. |
| Favorites.OperationsKeepIdsUnique | context/favorites/FavoritesProvider.tsx:44-68 | Add, remove and toggle keep at most one favourite per id. |
| Favorites.ClearFavorites | context/favorites/FavoritesProvider.tsx:70-72 | No id is listed after clearing. |
| EditProduct.CategoryId | components/sell/EditProduct.tsx:59-69 | The id is between 1 and 6, and an unknown name maps to 1. |
| EditProduct.CategoryName | components/sell/EditProduct.tsx:72-82 | The name is a listed category, and an id outside 1 to 6 maps to Laptops. |
| EditProduct.CategoryTablesRoundTrip | components/sell/EditProduct.tsx:59-82 | The two tables are inverse on the six categories. |
| EditProduct.ExistingPhotos | components/sell/EditProduct.tsx:120-125 | Each stored image becomes one existing photo, without a file, with its URL and the id of its position counted from 1, so the ids are unique. |
| EditProduct.Load | components/sell/EditProduct.tsx:85-133 | Without an id the page navigates to the account. A failed fetch alerts. A product fills every field: title, description, brand and model (empty when missing) and condition (`New` when missing); its price reads back as its value, its category is a listed name, and its images become the kept photos. A product without images alerts after filling. |
| EditProduct.SplitIsPartition | components/sell/EditProduct.tsx:228-237 | Each tracked photo is sent either as an upload or as a kept URL. |
| EditProduct.ExistingPhotosRoundTrip | components/sell/EditProduct.tsx:120-125 | Loaded photos submit back exactly their URLs and no uploads. |
| EditProduct.ImagePhotosPrefix | components/sell/EditProduct.tsx:140-146 | Scanning more files only extends the photos already produced. |
| EditProduct.AddPhoto | components/sell/EditProduct.tsx:135-153 | With no file list nothing changes. Otherwise the image files, in order, are appended until six photos, each as a new photo; a full list is unchanged. |
| EditProduct.RemovePhoto | components/sell/EditProduct.tsx:155-163 | The id is gone and every other photo stays. |
| EditProduct.SplitAround | components/sell/EditProduct.tsx:228-237 | A photo's upload or kept URL sits between those of the photos before and after it. |
| EditProduct.RemovePhotoWithdrawsIt | components/sell/EditProduct.tsx:155-163 | With unique ids, the next submit after removing a photo sends the uploads and kept URLs of the photos before and after it, so exactly that photo's part is withdrawn. |
| EditProduct.Validate | components/sell/EditProduct.tsx:193-210 | The form passes exactly when the title and description are not blank, the price starts with a number and a category is chosen. Otherwise the first failing check names the alert. |
| EditProduct.LoadedFormPasses | components/sell/EditProduct.tsx:110-117 | A loaded product with non-blank text passes validation. |
| EditProduct.BuildUpdate | components/sell/EditProduct.tsx:214-241 | The body carries title, description, price, condition, brand and model as the form holds them, and the category id as decimal text. New files are uploads; kept URLs are sent only when there are some. |
| EditProduct.Submit | components/sell/EditProduct.tsx:193-277 | An invalid form sends nothing and shows its alert. A valid one sends the request. Only an ok and successful answer returns to the account page. Any other answer shows its message, or the update-failed fallback, and a throw shows the error alert. |
| Sell.ReadPhotos | components/sell/Sell.tsx:59-71 | One photo per file whose read yields a data URL, in order, previewing with that URL. |
| Sell.HandlePhotoUpload | components/sell/Sell.tsx:54-75 | The old photos stay first and at most six are reached. The new photos are the readable files among the first free-slot-many chosen. |
| Sell.CanAddMorePhotos | components/sell/Sell.tsx:124 | True exactly below six photos. |
| Sell.UploadAgreesWithButton | components/sell/Sell.tsx:54-75 | With six photos an upload changes nothing; with fewer a readable file is added. |
| Sell.UploadPastCapStillAdds | components/sell/Sell.tsx:56-57 | Past six photos the negative slot count still lets files through. |
| Sell.RemovePhoto | components/sell/Sell.tsx:77-79 | The id is gone and every other photo stays. Removing a photo that is there re-enables adding photos. |
| Sell.RemovePhotoAt | components/sell/Sell.tsx:77-79 | With unique ids, removal takes out exactly the chosen photo and keeps the others in order. |
| Sell.HandleSpecChange | components/sell/Sell.tsx:85-89 | Only the named field of the indexed row changes, and an index outside the rows changes nothing. |
| Sell.SubmittedSpecs | components/sell/Sell.tsx:112 | The rows sent are exactly the rows with both key and value filled. |
| Sell.SubmittedSpecsInOrder | components/sell/Sell.tsx:112 | Rows are sent block by block in list order, and one row is sent exactly when both fields are filled, which fixes order and multiplicity. |
| Sell.SpecRowsSubmitWhenFilled | components/sell/Sell.tsx:33-38 | The four starting rows send nothing, and filling one row sends exactly that row. |
| Sell.Submit | components/sell/Sell.tsx:107-122 | The data carries the photos' files in order, the text and the complete rows. It goes to the callback when one is given, and otherwise the success alert shows. |
| ProductGrid.QueryParams | components/home/Defualt.tsx:61-70 | The query holds one to four parameters and always ends with `limit=50`. |
| ProductGrid.QueryParamsValues | components/home/Defualt.tsx:61-70 | `limit` appears nowhere but last. `category` carries the selected category, `brand_search` the trimmed search text and `fuzzy` the value `true`. |
| ProductGrid.QueryParamsPresence | components/home/Defualt.tsx:63-69 | `category` is sent exactly when a category is selected. `brand_search` is sent exactly when the search text is not blank, and `fuzzy` exactly alongside it. |
| ProductGrid.Transform | components/home/Defualt.tsx:80-96 | Every image path gets the host prefix, the cover is the first image or the placeholder, and a missing score is 0. Every other field carries over unchanged. |
| ProductGrid.FetchProducts | components/home/Defualt.tsx:55-108 | An ok answer shows the transformed products in order. A non-ok answer or a throw empties the grid with the message or its fallback. Loading ends. |
| ProductGrid.HandleImageError | components/home/Defualt.tsx:114-120 | A product's first image error records it and switches to the placeholder; a later error does nothing. |
| ProductGrid.ImageErrorOncePerProduct | components/home/Defualt.tsx:114-120 | After one error, a second error of the same product changes nothing. |
| ProductGrid.ProductPathsDistinct | components/home/Defualt.tsx:128 | Different products lead to different pages. |
| ProductGrid.HandleProductClick | components/home/Defualt.tsx:123-130 | A click calls the callback when one is given and otherwise navigates to the product's page. |
| ProductGrid.HandleKeyDown | components/home/Defualt.tsx:143-148 | Enter and space click the card, and every other key does nothing. |
| ProductDetail.NextPhoto | components/productPreview/ProductDetail.tsx:42-48 | The index steps forward cyclically, and only once the image list is loaded. |
| ProductDetail.PrevPhoto | components/productPreview/ProductDetail.tsx:50-56 | The index steps back cyclically, and only once the image list is loaded. |
| ProductDetail.PhotoStepsInverse | components/productPreview/ProductDetail.tsx:42-56 | With photos, the index stays in range and the two steps undo each other. |
| ProductDetail.EmptyImagesLeaveRange | components/productPreview/ProductDetail.tsx:43-54 | An empty image list lets the index leave the range. |
| ProductDetail.HandleKeyDown | components/productPreview/ProductDetail.tsx:127-137 | The arrows step the photos, Escape closes and Enter opens the lightbox, and other keys do nothing. |
| ProductDetail.KeysKeepIndexInRange | components/productPreview/ProductDetail.tsx:127-137 | No key sequence moves the index off the photos. |
| ProductDetail.CoverImage | components/productPreview/ProductDetail.tsx:84 | The cover is the first image when it is non-empty, and otherwise the placeholder. |
| ProductDetail.HandleAddToCart | components/productPreview/ProductDetail.tsx:91-112 | A listed product only alerts. A new one is added and confirmed. The cart always matches the provider's own add. |
| ProductDetail.HandleToggleFavorite | components/productPreview/ProductDetail.tsx:78-89 | The product's id flips between listed and not listed, and other ids are unaffected. |
| Profile.UploadPicture | components/account/Profile.tsx:203-224 | No file does nothing. A non-image or a file over 5 MiB alerts and changes nothing. An accepted file is shown at once and uploading is set. |
| Profile.PictureSizeLimitInclusive | components/account/Profile.tsx:214 | Exactly 5 MiB is accepted and one byte more is refused. |
| Profile.DeleteProduct | components/account/Profile.tsx:264-267 | The id is gone, every other listing stays, and nothing else changes. |
| Profile.DeleteProductKeepsOrder | components/account/Profile.tsx:267 | With unique ids, exactly that listing goes and the rest keep their order. |
| Profile.ToggleEditing | components/account/Profile.tsx:292-294 | Only the editing flag flips. |
| Profile.SaveProfile | components/account/Profile.tsx:296-301 | Editing ends and nothing else changes. |
| Profile.CancelEditing | components/account/Profile.tsx:363 | Editing ends and the profile is kept. |
| Profile.ChangeProfile | components/account/Profile.tsx:303-308 | Only the named field takes the value. |
| Profile.CancelKeepsEdits | components/account/Profile.tsx:303-308 | Cancel does not undo edits; it has the same effect as Save. |
| ProfileImageUpload.NormalizeImagePath | components/account/ProfileImageUpload.tsx:29-31 | The URL starts with `/uploads`. A bare name is placed under `/uploads/profiles/` and a full path is kept. |
| ProfileImageUpload.NormalizeIdempotent | components/account/ProfileImageUpload.tsx:132-134 | Normalising twice is normalising once. |
| ProfileImageUpload.NormalizeMergesPaths | components/account/ProfileImageUpload.tsx:132-134 | A bare file name and its full `/uploads/profiles/` path give the same URL. |
| ProfileImageUpload.ShowStoredImage | components/account/ProfileImageUpload.tsx:23-36 | A non-empty stored image is shown normalised, and otherwise nothing changes. |
| ProfileImageUpload.HandleImageChange | components/account/ProfileImageUpload.tsx:39-75 | No file does nothing. A wrong type or a file over 5 MiB sets that error. An accepted file is selected, previewed and clears the message. |
| ProfileImageUpload.UploaderStricterThanProfilePage | components/account/ProfileImageUpload.tsx:44-55 | Every file the uploader accepts, the profile page accepts too. The page also takes types the uploader refuses. |
| ProfileImageUpload.HandleUpload | components/account/ProfileImageUpload.tsx:78-160 | With nothing selected it only errors. Success clears the selection and shows the returned image normalised. A failure keeps the selection and shows the message or the fallback. Uploading ends. |
| ProfileImageUpload.UploadClearsSelection | components/account/ProfileImageUpload.tsx:147-148 | After a successful upload, a second one stops at the no-selection error. |
| ProfileImageUpload.HandleUploadAsWritten | components/account/ProfileImageUpload.tsx:122-128 | As written, a successful answer with an image settles like a throw with the `TypeError` message; every other reply settles as intended. |
| ProfileImageUpload.UploadWithImageFailsAsWritten | components/account/ProfileImageUpload.tsx:122-128 | As written, such an upload reports an error and keeps the selection; the intended handler reports success, clears it and shows the image. |
| Text.Trim | components/home/Defualt.tsx:66 | The result is empty exactly for blank text. Otherwise it is the middle of the text with no whitespace at either end. |
| Text.NumericPrefixExamples | components/sell/EditProduct.tsx:203 | A price is accepted when a number starts it, even with trailing text or after a space and a sign. |
| Text.NonNumericExamples | components/sell/EditProduct.tsx:203 | A price is refused when it starts with a letter, or is a point with no digit after it. |
| Text.Or | components/home/Defualt.tsx:103 | The value when present and non-empty, otherwise the fallback. |

## Left out

- Local storage writes (the save effects) and `JSON.stringify` are outside the model. `JSON.parse` is a parameter returning `None` where it throws.
- `getTotalPrice` in both cart providers is not modelled: it is floating-point arithmetic on `parseFloat` of the price.
- Price formatting (`Intl.NumberFormat`, `formatPrice`) and the home grid's debounce timer are left out.
- `FileReader`, `URL.createObjectURL`, `URL.revokeObjectURL`, `Date.now()` and `Math.random()` are parameters, or left out where only a side effect (revoking).
- Sell.HandlePhotoUpload: the reads complete in selection order. Overlapping uploads, whose reads interleave and can push the list past six photos, are not modelled beyond `Sell.UploadPastCapStillAdds`.
- Navigation delays (`setTimeout` before navigating) and the account page's two-second timer that clears the uploading flag are left out. Only the final route or flag is modelled.
- Console logging and the `GemApi` enhance buttons are left out.
- Dropdown open/close flags, category and condition setters, and `handleCancel` navigation in the forms are left out, being plain setters.
- `ProductDetail`'s fetch effect, `goToPhoto`, `openChat`, `viewSellerProfile`, and the lightbox and image-loading callbacks are left out. The carousel index and lightbox flag are modelled through the key handler.
- EditProduct.CategoryId: JavaScript object lookup also finds inherited keys such as `constructor`. The model treats every name outside the six categories as unknown and maps it to 1.
- EditProduct.Load: the stored price is an integer rendered with `toString`. Fractional prices are not modelled.
- Persisted.StorageKeysSeparateUsers: the signed-in user id is a parameter, as the providers evidently intend. The auth context as provided never supplies one, so this separation does not hold of the code as written (see Findings).
- ProfileImageUpload.HandleUpload: `updateProfile` is taken to succeed, as intended. The auth context as provided has no such function, so as written the success-with-image branch is not reached (see Findings). The stored image on mount is likewise a parameter, while the context as provided has no user.
- The chat widgets' current user comes in as a parameter (`Option<User>`).
- ChatUi.Bump: the widget sorts with a comparator that is inconsistent for duplicate ids. The model takes the result to be a stable partition, which is what the comparator means for unique ids.
- `URLSearchParams` percent-encoding of the query is left out. ProductGrid.Transform treats a `searchScore` of `NaN` like a missing one only through the `Option`.
- Profile.UploadPicture: the `catch` path (a throw from `URL.createObjectURL`) is not modelled. The contract says a changed page implies an accepted file, not the converse for the throwing case.
- `ChatStore` loading flags are modelled as ending false; the flag while a call is in flight is not observed.
- The chat service's HTTP layer (`services/chatApi.ts`) is not part of this model. Its results enter as `Reply` values.

## Findings

| source | as written | input that shows it | evidently intended | confidence | as-written member | corrected member |
|---|---|---|---|---|---|---|
| context/cart/CartProvider.tsx:14-19 | The key reads `user?.id` from an auth context that has no `user` (context/authcontext/AuthContext.ts:3-10), so it is always `cart_guest`; the favourites provider does the same | Users 1 and 2 signed in one after the other: both read and write `cart_guest` | A separate `cart_user_<id>` entry per signed-in user | high; not executed | Persisted.UsersShareKeyAsWritten | Persisted.StorageKeysSeparateUsers |
| components/account/ProfileImageUpload.tsx:122-128 | `updateProfile` comes from an auth context that has no such function, so calling it throws a `TypeError` | A selected file and an `ok` answer carrying `profileImage: "a.png"`: the error branch shows the `TypeError` message and keeps the selection | Success message, selection cleared, preview `/uploads/profiles/a.png` | high; not executed | ProfileImageUpload.UploadWithImageFailsAsWritten | ProfileImageUpload.HandleUpload |
