# Online Pharmacy System — a verified Dafny model

This project models the request handlers of the Online Pharmacy System, a Flask
shop for medicines and prescriptions. It covers customers, a doctor and an
administrator, and proves properties of that model in Dafny.

Modules:

- `Models`: the database rows as values (`User`, `Medicine`, `Order`, `CartRow`, `Prescription`) and their column defaults.
- `Database`: the database as a class `Db` with one map per table and an autoincrement counter per table. The Flask session is a class `Session` holding the cart, `pending_user_id` and `reset_user_id`. `Db.Valid()` states the integrity rules the handlers keep:
  - keys below the counters;
  - unique e-mail and phone;
  - foreign keys that resolve: an order's user and medicine, a prescription's uploader and, once set, its reviewing doctor and admin;
  - OTP columns of at most 6 characters, set and cleared together with their expiry.
- `AdminRoutes`:
  - order status updates and the delivery OTP check;
  - prescription review, status update and delivery OTP check;
  - the admin prescription queue and the dashboard's "latest five" list;
  - the single and bulk medicine delete guards.
- `MedicineDescription`: how the edit form joins description, ingredients and usage into one text, and splits the text back into the three fields.
- `DoctorRoutes`: the doctor dashboard (status counts and filters), and the doctor's approve and reject actions with how they feed the admin queue.
- `Storefront`:
  - the session cart (`add_to_cart`), the cart and checkout pages;
  - the checkout loops of `checkout` and `place_order`, which turn cart lines into orders and lower the stock;
  - the order history and the home and category listings.
- `AccountRoutes`: registration with an e-mailed code, its verification, and password reset. `routes/auth.py` resets in two steps and `app.py` in one.
- `ImagePaths`: the script that rewrites backslashes in image paths.
- `Otp`: `generate_otp` as the decimal string of a draw from 100000..999999.
- Helpers: `Strings`, `Queries` (key order, filters, `limit`) and `Cart` (the cart dictionary).

Some inputs become parameters:

- the clock (`now`, in seconds);
- the random draw;
- the password hash;
- whether each e-mail was sent.

An e-mail helper that raises on failure is modelled by a flag. If the send fails before the commit, nothing is committed. If it fails after the commit, the request stops at that point.

## Where the code and the documented behaviour differ (the model follows the code)

- Codes come from `random.randint(100000, 999999)`, never with a leading zero. They are not drawn from 000000..999999.
- Delivery OTP checks still accept the code at the expiry instant (`now > expiry` is the failure). Account OTP checks need `expiry > now`.
- Not every notification is best effort. `send_order_email` raises after the checkout commit, so then the orders stay but the cart is not cleared. The delivery OTP e-mails raise before the commit, so no OTP is stored. `send_email` swallows its errors.
- The cart is cleared after checkout only when the admin notification was sent.
- A delivery OTP is cleared only on a successful confirmation. An expired code stays stored (routes/admin.py:556-558 and 584-586): the check reports the expiry and changes nothing.
- `reset_password` in `routes/auth.py` needs only `reset_user_id` in the session. It does not check that the code was verified.

## Model

| member | source | states |
|---|---|---|
| Models.NewUser | models.py:8-18 | a new user is not an admin, not a doctor and not verified, and has no OTP |
| Models.NewMedicine | models.py:20-31 | a new medicine has discount 0 |
| Models.NewOrder | models.py:33-44 | a new order is Pending with no delivery OTP |
| Models.NewCartRow | models.py:56-60 | a cart row's quantity defaults to 1 |
| Models.NewPrescription | models.py:65-83 | a new prescription is Pending with no doctor, no admin and no OTP |
| Database.Db.AddUser | models.py:8-18 | a user is admitted only with an e-mail and a phone no one has; the new row gets the next key and every integrity rule still holds |
| Database.Db.RemoveMedicine | routes/admin.py:178-179 | deleting a medicine that no order references keeps all foreign keys valid |
| Database.Db.AddOrder | routes/main.py:117 | the new order gets the next key; the other tables are unchanged |
| Otp.GenerateOtp | utils.py:46-48 | the code has exactly 6 ASCII digits, does not start with '0', and its value is the draw |
| Otp.GenerateOtpOnto | utils.py:46-48 | every 6-digit code without a leading zero comes from exactly one draw in 100000..999999 |
| AdminRoutes.CheckDeliveryOtp | routes/admin.py:552-567 | no code (or an empty one) or no expiry gives NoOtp; a clock past the expiry gives Expired; otherwise the input equal to the code confirms; each case is an if-and-only-if |
| AdminRoutes.IssuedCodeConfirms | routes/admin.py:556-560 | an issued code confirms exactly when it is submitted up to and including its expiry instant |
| AdminRoutes.ExpiryExamples | routes/admin.py:556-558 | 25 hours after issue the code is expired; at exactly 24 hours it still confirms |
| AdminRoutes.DeliveredIgnoresCase | routes/admin.py:235 | "Delivered" and "DELIVERED" count as a delivery request |
| AdminRoutes.NotDeliveredRequests | routes/admin.py:235 | "Delivered " (trailing space) and "Awaiting OTP Verification" do not |
| AdminRoutes.IssueOrderOtp | routes/admin.py:236-238 | issuing sets the code and an expiry 24 hours on, and leaves the status and every other field as they were |
| AdminRoutes.ConfirmOrderDelivery | routes/admin.py:560-564 | a confirmation sets Delivered and clears both OTP fields; nothing else changes |
| AdminRoutes.OrderIssueThenConfirm | routes/admin.py:234-241 | the code just issued confirms the order up to its expiry, and the order then becomes Delivered |
| AdminRoutes.OrderReplayFails | routes/admin.py:552-554 | after a confirmation any further check finds no OTP |
| AdminRoutes.UpdateOrderStatus | routes/admin.py:221-258 | a non-admin, an unknown order or a missing status changes nothing; a status other than "delivered" is written verbatim; "delivered" issues an OTP and keeps the status, unless the OTP mail raises, in which case nothing changes |
| AdminRoutes.VerifyDeliveryOtp | routes/admin.py:543-569 | the returned outcome is the OTP check, and the order changes (to Delivered, OTP cleared) only on Confirmed |
| AdminRoutes.ReviewedBy | routes/admin.py:432-433 | records the admin and the review time and nothing else |
| AdminRoutes.IssuePrescriptionOtp | routes/admin.py:420-424 | issuing sets the code, a 24-hour expiry and the status Awaiting OTP Verification |
| AdminRoutes.ConfirmPrescriptionDelivery | routes/admin.py:588-592 | a confirmation sets Delivered and clears both OTP fields |
| AdminRoutes.PrescriptionIssueThenConfirm | routes/admin.py:420-433 | the code just issued confirms the prescription up to its expiry |
| AdminRoutes.AdminVerdict | routes/admin.py:385-404 | "approve" gives Approved and "reject" gives Rejected, each with the admin and the time; any other action changes nothing; the previous status is not consulted |
| AdminRoutes.AdminVerify | routes/admin.py:379-405 | a non-admin or an unknown id changes nothing; otherwise only that prescription becomes its verdict |
| AdminRoutes.UpdatePrescriptionStatus | routes/admin.py:406-453 | "delivered" issues an OTP and sets Awaiting OTP Verification (nothing changes if the OTP mail raises); any other status is written verbatim; both branches record the admin and the time |
| AdminRoutes.VerifyPrescriptionDeliveryOtp | routes/admin.py:571-597 | the returned outcome is the OTP check, and the prescription changes only on Confirmed |
| AdminRoutes.AdminQueue | routes/admin.py:371-377 | the queue holds exactly the prescriptions whose status is Doctor Approved, in ascending key order |
| AdminRoutes.DashboardQueue | routes/admin.py:138 | at most 5 Doctor Approved prescriptions, newest first; a Doctor Approved one left out means 5 were listed and all of them are newer |
| AdminRoutes.DeleteMedicine | routes/admin.py:167-181 | the medicine is deleted iff the actor is an admin, the medicine exists and no order references it; nothing else changes |
| AdminRoutes.BulkDeleteSpec | routes/admin.py:605-619 | after the loop, a medicine remains iff it was not selected or some order references it; the remaining rows are unchanged; an empty selection changes nothing |
| AdminRoutes.BulkDeleteRemoves | routes/admin.py:611-619 | the removed medicines are exactly the selected existing ones without orders |
| AdminRoutes.BulkDeleteMedicines | routes/admin.py:599-624 | a non-admin or an empty selection deletes nothing and reports 0; otherwise the medicines are as the bulk-delete specification says |
| AdminRoutes.DeleteEach | routes/admin.py:610-621 | `deleted_count` equals the number of medicines actually removed |
| MedicineDescription.Compose | routes/admin.py:281-288 | with empty ingredients and usage the stored text is the description; the description is always its prefix |
| MedicineDescription.Split | routes/admin.py:302-319 | a missing description gives three empty fields; a text with neither marker is all description; the sections come back stripped |
| MedicineDescription.SplitCompose | routes/admin.py:281-319 | splitting a composed text gives back the three fields when they hold no marker and the sections carry no surrounding whitespace; an omitted section comes back as '' |
| DoctorRoutes.StatusCount | routes/doctor.py:16-19 | the count is the length of the list of prescriptions with exactly that status |
| DoctorRoutes.CountsWithinTotal | routes/doctor.py:17-19 | Pending, Approved and Rejected counts together never exceed the number of prescriptions; no prescription counted under any of the three is Doctor Approved |
| DoctorRoutes.DashboardListSpec | routes/doctor.py:26-33 | the list holds exactly the prescriptions whose patient e-mail contains the search (ignoring case), whose status equals the filter unless it is "all", and that were submitted on the given day; it stays in key order |
| DoctorRoutes.DashboardUnfiltered | routes/doctor.py:22-26 | with no filters every prescription is listed |
| DoctorRoutes.DoctorDashboard | routes/doctor.py:9-35 | only a doctor sees the dashboard, and its three counts add up to at most the number of prescriptions |
| DoctorRoutes.DoctorApproval | routes/doctor.py:45-48 | sets Doctor Approved, the doctor, the time and the notes (default ''), whatever the previous status; nothing else changes |
| DoctorRoutes.DoctorRejection | routes/doctor.py:62-65 | sets Rejected, the doctor, the time and the notes as the rejection reason; nothing else changes |
| DoctorRoutes.DoctorApprove | routes/doctor.py:37-52 | a non-doctor or an unknown id changes no prescription; otherwise only that one is approved |
| DoctorRoutes.DoctorReject | routes/doctor.py:54-77 | the same for a rejection |
| DoctorRoutes.ApprovalQueuesForAdmin | routes/doctor.py:45 | a doctor's approval puts the prescription in the admin queue and moves no other prescription in or out |
| DoctorRoutes.RejectionSkipsAdmin | routes/doctor.py:62 | a rejected prescription is not in the admin queue |
| DoctorRoutes.AdminVerdictLeavesQueue | routes/admin.py:386-394 | the admin's approve or reject takes the prescription out of the queue |
| DoctorRoutes.TwoStepApprovalCounts | routes/doctor.py:18 | a doctor's approval alone does not count as Approved; the admin's approval after it does |
| Cart.AddQuantity | routes/main.py:49-54 | for a dictionary (distinct ids) the entry for the medicine grows by the quantity (a missing entry counts as 0), the ids stay distinct, a new id goes last in the request's dictionary, and every other entry is unchanged |
| Cart.QuantityAt | routes/main.py:52 | `cart.get(id, 0)` is the quantity of the one line holding that id |
| Cart.AddTwice | routes/main.py:52 | two additions of the same medicine add up |
| Storefront.AddToCart | app.py:205-213 | the session cart becomes the accumulated cart and stays a dictionary |
| Storefront.CartPage | routes/main.py:57-68 | one row per cart line whose medicine exists, priced `price * qty` without discount, and the total is the sum of the rows |
| Storefront.DiscountedCartPage | app.py:215-228 | one row per cart line whose medicine exists, priced with the discount, and the total is their sum (also the checkout page at routes/main.py:139-149) |
| Cart.DiscountNeverRaisesTotal | routes/main.py:63-67 | with discounts between 0 and 100 the discounted total never exceeds the plain total |
| Cart.ItemsAreExistingLines | routes/main.py:142-147 | the pages list exactly the cart lines whose medicine exists |
| Storefront.LineOrder | routes/main.py:106-116 | the order for a line is Pending, has that line's quantity, and its total is `price * (1 - discount/100) * qty` |
| Storefront.ClampedStock | routes/main.py:120-122 | the new stock is `stock - qty` clamped at 0 |
| Storefront.MaterializeSpec | routes/main.py:102-122 | a line becomes an order iff its medicine exists and has `stock >= qty`, judged against the stock before checkout; an accepted line's medicine ends at `max(0, stock - qty)`; skipped lines and medicines not in the cart keep their stock; no medicine is added or removed |
| Storefront.MaterializeKeepsStockNonNegative | routes/main.py:234-236 | if every stock was non-negative before checkout, every stock is non-negative afterwards |
| Storefront.AddRowsSpec | routes/main.py:228 | the new orders get consecutive keys and the old orders are kept |
| Storefront.PlaceCartOrders | routes/main.py:213-236 | the loop leaves the medicines and orders as the specification says, and `grand_total` is the sum of the new orders' totals |
| Storefront.Checkout | routes/main.py:77-137 | an empty cart or a missing address changes nothing; otherwise the cart's lines become orders, and the cart is emptied iff the admin notification was sent |
| Storefront.PlaceOrder | routes/main.py:187-249 | as checkout, and returns the grand total of the orders it created |
| Storefront.HomeListing | routes/main.py:18-36 | a medicine is listed iff it passes every given filter (search term in brand or name, category, brand, ignoring case), in key order |
| Storefront.HomeUnfiltered | routes/main.py:24-36 | without filters the whole catalogue is listed |
| Storefront.SearchNarrows | routes/main.py:24-28 | a search term only removes medicines, keeping the order of the rest |
| Storefront.CategoryPageIsHomeFilter | routes/main.py:40-44 | the category page is the home page with only the category filter |
| Storefront.OwnOrders | routes/main.py:154 | exactly the user's orders, newest key first |
| Storefront.OwnPrescriptions | routes/main.py:155 | exactly the user's prescriptions, newest key first |
| Storefront.SortSpec | routes/main.py:175-176 | the history sort returns the entries newest first, each as often as given |
| Storefront.HistorySpec | routes/main.py:151-179 | the history holds exactly the user's orders whose medicine still exists and the user's prescriptions, each exactly once (a permutation of the two collected lists) and with its current row, newest first |
| Storefront.MyOrders | routes/main.py:151-179 | the two loops and the sort produce the history |
| AccountRoutes.Registrant | routes/auth.py:28-30 | the new user is unverified, has a 6-digit code from the draw and an expiry 10 minutes on |
| AccountRoutes.AccountOtpWindow | routes/auth.py:64 | an issued code is accepted iff it is entered strictly before its expiry; a different input never is; a cleared code never is |
| AccountRoutes.AccountOtpExamples | routes/auth.py:64 | accepted at 9 minutes 59 seconds, refused at exactly 10 minutes |
| AccountRoutes.Register | routes/auth.py:14-50 | an existing e-mail is refused first, then an existing phone, with no user created; otherwise a new user with a code is committed and deleted again when the mail fails; on success the session names it (the app.py copy at lines 121-159 is the same) |
| AccountRoutes.Enrol | routes/auth.py:30-48 | the new user exists after the request iff the mail was sent |
| AccountRoutes.VerifyOtp | routes/auth.py:53-74 | succeeds iff a registration is in progress for an existing user whose code equals the input and whose expiry is strictly after now; then the user is verified, the code is cleared and the registration ends; otherwise nothing changes (the app.py copy at lines 161-182 is the same) |
| AccountRoutes.ForgotPassword | routes/auth.py:95-126 | an unknown e-mail changes nothing; a known one gets a fresh code and a 10-minute expiry, committed even when the mail fails; only a sent mail starts the reset in the session (the app.py copy at lines 252-283 is the same) |
| AccountRoutes.VerifyResetOtp | routes/auth.py:128-147 | a correct unexpired code is cleared and the password is left alone; a missing session key, an unknown user or a wrong code changes nothing |
| AccountRoutes.ResetPassword | routes/auth.py:149-167 | with a reset in progress for an existing user, the password is set, the code cleared and the reset ended, with no check of the code; otherwise nothing changes |
| AccountRoutes.ResetPasswordOtp | app.py:285-307 | the password changes iff the code matches and is unexpired; then the code is cleared and the reset ends |
| AccountRoutes.TwoStepResetMatchesOneStep | routes/auth.py:139-164 | verify-then-reset leaves the same user record as the one-step reset of app.py |
| AccountRoutes.ResetNeedsNoCode | routes/auth.py:151-163 | the password can be reset right after the code is mailed, without entering it |
| AccountRoutes.RegistrationThenVerify | routes/auth.py:28-68 | a registration's code is accepted for ten minutes, and verifying it leaves a verified user |
| ImagePaths.FixedImageSpec | fix_image_paths.py:12-15 | after the fix there is no backslash; a path without one, missing or empty, is unchanged; each backslash becomes '/' in place, so the length is kept |
| ImagePaths.FixedImageIdempotent | fix_image_paths.py:12-15 | fixing twice is fixing once |
| ImagePaths.FixImagePaths | fix_image_paths.py:10-17 | every medicine's image is fixed, no medicine is added or removed, and afterwards no image holds a backslash |
| ImagePaths.SecondPassChangesNothing | fix_image_paths.py:11-15 | running the script again changes nothing |

## Left out

- E-mail sending (SMTP, the Gmail API script) is not modelled. A "mail sent" flag stands in where a failure changes the outcome. Mails whose failure is swallowed (`send_email`, the doctor's rejection mail) are dropped.
- Not modelled from the web framework:
  - Flask routing, templates, `flash` and `redirect`;
  - `login`/`logout` and password checking;
  - GET requests that only render a page.
- The acting user is a key of the users table (`login_required`). `is_admin` and `is_doctor` are read from that row.
- The dashboard statistics and sales sum, offers, and the PDF and CSV exports are not modelled. They are report generation on top of library calls.
- File uploads (`secure_filename`, `file.save`) are not modelled. The stored file name is a parameter.
- `place_order` in app.py refers to an undefined `cart_items` and cannot run, so it is not modelled.
- The app.py `my_orders` handler (app.py:240-244) and the `clear_cart` handlers of app.py:230-234 and routes/main.py:70-74 are not modelled.
- Queries issued without `order_by` (`query.all()`, `filter_by(...).all()`) are taken in ascending key order. SQLite's table-scan order is not guaranteed to be that. This affects the admin queue, the home and category listings, the doctor dashboard list and the image-path script.
- The seed routes `create_admin`/`create_doctor`, the one-off admin scripts and `config.py` are not modelled. They only insert fixed rows or print.
- Concurrency is not modelled: each request runs alone.
- Prices are `real`, not floating point. Nothing is claimed about rounding.
- `Lower` folds ASCII letters only, where Python lowercases all of Unicode.
- `ilike` patterns are taken as plain substrings. A `%` or `_` typed into a search is not treated as a wildcard.
- The doctor's date filter takes the already parsed day. A malformed date (a server error in the code) is not modelled.
- `int(...)` parse errors and missing form fields, which end the request with a server error, are not modelled.
- Keys are never reused. SQLite may hand out the key of a deleted last row again.
- DeleteEach: a medicine id that appears twice in the selection is handled as already deleted when it appears again. This relies on the database session treating a deleted row as gone.
- AddToCart, PlaceCartOrders, Checkout, PlaceOrder, CartPage, DiscountedCartPage: the session cart keeps its in-request order from one request to the next. Flask's cookie session stores the dictionary as JSON with sorted keys, so a later request sees the ids ordered by their decimal strings ("10" before "9"). Which order gets the first new key, and the row order of the cart pages, is therefore not modelled faithfully. The set of orders, their contents, the stock and the totals do not depend on that order.
- Storefront.SortSpec: the Python sort is stable. The model's insertion keeps equal-dated entries in their original order, but that stability is not stated as a property.
- Storefront.MaterializeSpec: it assumes, as the session dictionary guarantees, that the cart holds each medicine id once.
- UpdateOrderStatus: the "Rejected" notification is best effort and not modelled.
